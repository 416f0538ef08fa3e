/**
 * The matching passes of the MSVC comparison: each pass reads unmatched rows
 * of the entity table, pairs orig and recomp addresses by one rule, reports
 * the orig rows it cannot pair, and commits its pairs through one batch.
 */
module MatchMsvc {
  import opened Wrappers
  import opened JsonBag
  import opened PyDict
  import opened CompareDb
  import opened EntityBatches
  import opened MatchIndex
  import opened RankJoin
  import SqlLike
  import Lines

  // ---------------------------------------------------------------------
  // Attributes as json_extract reads them

  /** `json_extract(kvstore, '$.key')` when it yields text. */
  function StrAttr(kv: Bag, key: string): (r: Option<string>)
    ensures r.Some? <==> key in kv && kv[key].JStr?
    ensures r.Some? ==> kv[key] == JStr(r.value)
  {
    if key in kv && kv[key].JStr? then Some(kv[key].s) else None
  }

  /** `json_extract(kvstore, '$.type') IS NULL`: no type member, or a JSON null. */
  predicate TypeIsNull(kv: Bag)
  {
    "type" !in kv || kv["type"] == JNull
  }

  /** `json_extract(kvstore, '$.static_var') = 1`; JSON true reads back as 1. */
  predicate StaticVarIsOne(kv: Bag)
  {
    "static_var" in kv && (kv["static_var"] == JInt(1) || kv["static_var"] == JBool(true))
  }

  /** `symbol[:255]` when truncating (the identifier limit of older MSVC). */
  function Trunc(s: string, truncate: bool): (r: string)
    ensures |r| <= |s| && r == s[..|r|]
    ensures truncate ==> |r| == if |s| <= 255 then |s| else 255
    ensures !truncate ==> r == s
  {
    if truncate && |s| > 255 then s[..255] else s
  }

  // ---------------------------------------------------------------------
  // Committing a pass's pairs

  function Origs(pairs: seq<(int, int)>): (r: seq<int>)
    ensures |r| == |pairs| && forall i :: 0 <= i < |r| ==> r[i] == pairs[i].0
  {
    seq(|pairs|, i requires 0 <= i < |pairs| => pairs[i].0)
  }

  function Swapped(pairs: seq<(int, int)>): (r: seq<(int, int)>)
    ensures |r| == |pairs| && forall i :: 0 <= i < |r| ==> r[i] == (pairs[i].1, pairs[i].0)
  {
    seq(|pairs|, i requires 0 <= i < |pairs| => (pairs[i].1, pairs[i].0))
  }

  /** The batch's two match dictionaries after `match` was called on each pair in order. */
  function StagedPairs(pairs: seq<(int, int)>): (r: (Dict<int, int>, Dict<int, int>))
    ensures DistinctKeys(r.0) && DistinctKeys(r.1)
  {
    if pairs == [] then ([], [])
    else
      var s := StagedPairs(pairs[..|pairs| - 1]);
      var last := pairs[|pairs| - 1];
      StageMatch(s.0, s.1, last.0, last.1)
  }

  /** Pairs that share no orig and no recomp address are staged exactly as given, in order. */
  lemma {:induction false} StagedPairsExact(pairs: seq<(int, int)>)
    requires NoDup(Origs(pairs)) && NoDup(Recomps(pairs))
    ensures StagedPairs(pairs).0 == pairs && StagedPairs(pairs).1 == Swapped(pairs)
  {
    if pairs != [] {
      var pre := pairs[..|pairs| - 1];
      var last := pairs[|pairs| - 1];
      assert pre + [last] == pairs;
      assert NoDup(Origs(pre)) by {
        forall i, j | 0 <= i < j < |pre| ensures Origs(pre)[i] != Origs(pre)[j] {
          assert Origs(pairs)[i] != Origs(pairs)[j];
        }
      }
      assert NoDup(Recomps(pre)) by {
        forall i, j | 0 <= i < j < |pre| ensures Recomps(pre)[i] != Recomps(pre)[j] {
          assert Recomps(pairs)[i] != Recomps(pairs)[j];
        }
      }
      StagedPairsExact(pre);
      assert !HasKey(pre, last.0) by {
        forall i | 0 <= i < |pre| ensures pre[i].0 != last.0 {
          assert Origs(pairs)[i] != Origs(pairs)[|pairs| - 1];
        }
      }
      var sw := Swapped(pre);
      assert !HasKey(sw, last.1) by {
        forall i | 0 <= i < |sw| ensures sw[i].0 != last.1 {
          assert Recomps(pairs)[i] != Recomps(pairs)[|pairs| - 1];
        }
      }
      StageFresh(pre, sw, last.0, last.1);
      SwappedSnoc(pairs);
    }
  }

  lemma SwappedSnoc(pairs: seq<(int, int)>)
    requires pairs != []
    ensures Swapped(pairs) == Swapped(pairs[..|pairs| - 1]) + [(pairs[|pairs| - 1].1, pairs[|pairs| - 1].0)]
  {
    var pre := pairs[..|pairs| - 1];
    assert forall i :: 0 <= i < |pre| ==> Swapped(pre)[i] == Swapped(pairs)[i];
  }

  /** Staging a pair whose addresses are both new appends it to both dictionaries. */
  lemma StageFresh(o2r: Dict<int, int>, r2o: Dict<int, int>, o: int, r: int)
    requires DistinctKeys(o2r) && DistinctKeys(r2o) && !HasKey(o2r, o) && !HasKey(r2o, r)
    ensures StageMatch(o2r, r2o, o, r) == (o2r + [(o, r)], r2o + [(r, o)])
  {
    assert IndexOf(o2r, o).None?;
    assert IndexOf(r2o, r).None?;
    assert Get(o2r, o).None? && Get(r2o, r).None?;
    assert Put(o2r, o, r) == o2r + [(o, r)];
    assert Remove(r2o, r) == r2o;
    assert Put(r2o, r, o) == r2o + [(r, o)];
  }

  /**
   * Pairs with distinct orig and recomp addresses, each recomp address on a
   * recomp-only row: after bulk_match every orig address is linked to its
   * recomp address.
   */
  lemma MatchAllLinks(t: Table, pairs: seq<(int, int)>)
    requires WellFormed(t) && NoDup(Origs(pairs)) && NoDup(Recomps(pairs))
    requires forall i :: 0 <= i < |pairs| ==> pairs[i].1 in t.recompRows
    ensures forall i :: 0 <= i < |pairs| ==>
      pairs[i].0 in MatchAll(t, pairs).recompOf && MatchAll(t, pairs).recompOf[pairs[i].0] == pairs[i].1
  {
    MergeAllKeepsRecompRows(t, pairs);
    LinkAllLinks(MatchMergeAll(t, pairs), pairs);
  }

  lemma {:induction false} MergeAllKeepsRecompRows(t: Table, pairs: seq<(int, int)>)
    requires WellFormed(t)
    ensures MatchMergeAll(t, pairs).recompRows.Keys == t.recompRows.Keys
  {
    if pairs != [] {
      MergeAllKeepsRecompRows(t, pairs[..|pairs| - 1]);
    }
  }

  /** One link leaves the other links alone and uses up its recomp-only row. */
  lemma MatchLinkKeeps(t: Table, o: int, r: int, o': int)
    requires WellFormed(t) && r in t.recompRows && o' != o && o' in t.recompOf
    ensures o' in MatchLink(t, o, r).recompOf && MatchLink(t, o, r).recompOf[o'] == t.recompOf[o']
    ensures MatchLink(t, o, r).recompRows == t.recompRows - {r}
  {
    var d := DeleteOrigRow(t, o);
    assert o' in d.recompOf && d.recompOf[o'] == t.recompOf[o'];
  }

  lemma {:induction false} LinkAllLinks(t: Table, pairs: seq<(int, int)>)
    requires WellFormed(t) && NoDup(Origs(pairs)) && NoDup(Recomps(pairs))
    requires forall i :: 0 <= i < |pairs| ==> pairs[i].1 in t.recompRows
    ensures forall i :: 0 <= i < |pairs| ==>
      pairs[i].0 in MatchLinkAll(t, pairs).recompOf && MatchLinkAll(t, pairs).recompOf[pairs[i].0] == pairs[i].1
  {
    if pairs != [] {
      var pre := pairs[..|pairs| - 1];
      var last := pairs[|pairs| - 1];
      PairsPrefix(pairs);
      LinkAllLinks(t, pre);
      LinkAllKeepsRows(t, pre);
      var u0 := MatchLinkAll(t, pre);
      var u := MatchLinkAll(t, pairs);
      assert u == MatchLink(u0, last.0, last.1);
      assert last.1 in u0.recompRows;
      MatchLinkKeepsRows(u0, last.0, last.1);
      MatchLinkKeepsAll(u0, last.0, last.1, pre);
    }
  }

  /** One link leaves every earlier link in place. */
  lemma MatchLinkKeepsAll(t: Table, o: int, r: int, pre: seq<(int, int)>)
    requires WellFormed(t) && r in t.recompRows
    requires forall i :: 0 <= i < |pre| ==> pre[i].0 != o && pre[i].0 in t.recompOf && t.recompOf[pre[i].0] == pre[i].1
    ensures forall i :: 0 <= i < |pre| ==>
      pre[i].0 in MatchLink(t, o, r).recompOf && MatchLink(t, o, r).recompOf[pre[i].0] == pre[i].1
  {
    forall i | 0 <= i < |pre|
      ensures pre[i].0 in MatchLink(t, o, r).recompOf && MatchLink(t, o, r).recompOf[pre[i].0] == pre[i].1
    {
      MatchLinkKeeps(t, o, r, pre[i].0);
    }
  }

  /** Linking uses up only the recomp-only rows the pairs name. */
  lemma {:induction false} LinkAllKeepsRows(t: Table, pairs: seq<(int, int)>)
    requires WellFormed(t) && NoDup(Origs(pairs)) && NoDup(Recomps(pairs))
    requires forall i :: 0 <= i < |pairs| ==> pairs[i].1 in t.recompRows
    ensures forall r :: r in t.recompRows && r !in Recomps(pairs) ==> r in MatchLinkAll(t, pairs).recompRows
  {
    if pairs != [] {
      var pre := pairs[..|pairs| - 1];
      var last := pairs[|pairs| - 1];
      PairsPrefix(pairs);
      LinkAllKeepsRows(t, pre);
      var u0 := MatchLinkAll(t, pre);
      var u := MatchLinkAll(t, pairs);
      assert u == MatchLink(u0, last.0, last.1);
      assert last.1 in u0.recompRows;
      MatchLinkKeepsRows(u0, last.0, last.1);
    }
  }

  lemma MatchLinkKeepsRows(t: Table, o: int, r: int)
    requires WellFormed(t) && r in t.recompRows
    ensures o in MatchLink(t, o, r).recompOf && MatchLink(t, o, r).recompOf[o] == r
    ensures MatchLink(t, o, r).recompRows == t.recompRows - {r}
  {
  }

  /** Dropping the last pair keeps both sides free of duplicates, and the last pair's addresses appear nowhere earlier. */
  lemma PairsPrefix(pairs: seq<(int, int)>)
    requires pairs != [] && NoDup(Origs(pairs)) && NoDup(Recomps(pairs))
    ensures var pre := pairs[..|pairs| - 1];
      && NoDup(Origs(pre)) && NoDup(Recomps(pre))
      && (forall i :: 0 <= i < |pre| ==> pairs[i] == pre[i] && pairs[i].0 != pairs[|pairs| - 1].0)
      && (forall r :: r !in Recomps(pairs) ==> r !in Recomps(pre) && r != pairs[|pairs| - 1].1)
      && pairs[|pairs| - 1].1 !in Recomps(pre)
  {
    var pre := pairs[..|pairs| - 1];
    forall i, j | 0 <= i < j < |pre| ensures Origs(pre)[i] != Origs(pre)[j] && Recomps(pre)[i] != Recomps(pre)[j] {
      assert Origs(pairs)[i] != Origs(pairs)[j];
      assert Recomps(pairs)[i] != Recomps(pairs)[j];
    }
    forall i | 0 <= i < |pre| ensures pairs[i].0 != pairs[|pairs| - 1].0 && Recomps(pre)[i] != pairs[|pairs| - 1].1 {
      assert Origs(pairs)[i] != Origs(pairs)[|pairs| - 1];
      assert Recomps(pairs)[i] != Recomps(pairs)[|pairs| - 1];
    }
    forall r | r !in Recomps(pairs) ensures r !in Recomps(pre) {
      forall i | 0 <= i < |pre| ensures Recomps(pre)[i] != r { assert Recomps(pairs)[i] == Recomps(pre)[i]; }
    }
  }

  /** Stage `match` for every pair on the batch, in order. */
  method StageAll(batch: EntityBatch, pairs: seq<(int, int)>)
    requires batch.Valid() && batch.origToRecomp == [] && batch.recompToOrig == []
    modifies batch`origToRecomp, batch`recompToOrig
    ensures batch.Valid()
    ensures (batch.origToRecomp, batch.recompToOrig) == StagedPairs(pairs)
  {
    var i := 0;
    while i < |pairs|
      invariant 0 <= i <= |pairs|
      invariant batch.Valid()
      invariant (batch.origToRecomp, batch.recompToOrig) == StagedPairs(pairs[..i])
    {
      MatchPairAt(batch, pairs, i);
      i := i + 1;
    }
    assert pairs[..|pairs|] == pairs;
  }

  /** `match` on the `i`-th pair: the dictionaries go from the first `i` pairs staged to the first `i + 1`. */
  method MatchPairAt(batch: EntityBatch, pairs: seq<(int, int)>, i: nat)
    requires batch.Valid() && i < |pairs|
    requires (batch.origToRecomp, batch.recompToOrig) == StagedPairs(pairs[..i])
    modifies batch`origToRecomp, batch`recompToOrig
    ensures batch.Valid() && (batch.origToRecomp, batch.recompToOrig) == StagedPairs(pairs[..i + 1])
  {
    StagedPairsStep(pairs, i);
    batch.Match(pairs[i].0, pairs[i].1);
  }

  lemma StagedPairsStep(pairs: seq<(int, int)>, i: int)
    requires 0 <= i < |pairs|
    ensures var s := StagedPairs(pairs[..i]);
      StagedPairs(pairs[..i + 1]) == StageMatch(s.0, s.1, pairs[i].0, pairs[i].1)
  {
    assert pairs[..i + 1][..i] == pairs[..i];
  }

  /** Stage `match` for every pair through one batch and leave the `with` block normally. */
  method CommitMatches(db: EntityDb, pairs: seq<(int, int)>)
    requires db.Valid()
    modifies db`table, db`types, db`labels
    ensures db.Valid()
    ensures db.table == MatchAll(old(db.table), StagedPairs(pairs).0)
    ensures db.types == old(db.types) && db.labels == old(db.labels)
  {
    var batch := new EntityBatch(db);
    StageAll(batch, pairs);
    CommitStaged(db, batch);
  }

  /** Leave the `with` block of a batch that holds only matches. */
  method CommitStaged(db: EntityDb, batch: EntityBatch)
    requires batch.base == db && batch.Valid()
    requires batch.origInsert == [] && batch.recompInsert == [] && batch.origSet == [] && batch.recompSet == []
    requires batch.types == map[] && batch.labels == map[] && batch.recompAddr == []
    modifies batch, db`table, db`types, db`labels
    ensures db.Valid()
    ensures db.table == MatchAll(old(db.table), old(batch.origToRecomp))
    ensures db.types == old(db.types) && db.labels == old(db.labels)
  {
    CommitOnlyMatches(db.table, batch.origToRecomp);
    NothingElseStaged(db.types, db.labels);
    var ok := batch.Exit(false);
  }

  /** A batch holding only matches commits exactly those matches. */
  lemma CommitOnlyMatches(t: Table, m: Dict<int, int>)
    requires WellFormed(t)
    ensures CommitTable(t, [], [], [], [], m, []) == (MatchAll(t, m), true)
  {
    assert InsertRecompAll(InsertOrigAll(InsertRecompAll(InsertOrigAll(t, [], false), [], false), [], true), [], true) == t;
  }

  // ---------------------------------------------------------------------
  // The passes driven by an EntityIndex: symbols, vtables, variables

  datatype IndexedPass = Symbols(truncate: bool) | Vtables | Variables

  /** `Class::`vftable'`. */
  function BareVftable(c: string): string
  {
    c + "::`vftable'"
  }

  /** `Class::`vftable'{for `Base'}`. */
  function ForVftable(c: string, base: string): string
  {
    c + "::`vftable'{for `" + base + "'}"
  }

  /** The vtable names tried for class `c`, in order. */
  function VtableKeys(c: string, base: Option<string>): seq<string>
  {
    if base.None? || base.value == c then [BareVftable(c), ForVftable(c, c)]
    else [ForVftable(c, base.value)]
  }

  /**
   * The bare name is tried first only when no other base class is given;
   * otherwise, or when it is absent, the `{for ...}` name with the base class
   * (or the class itself); nothing matches only if both are absent.
   */
  lemma VtableKeyChosen(m: Index, c: string, base: Option<string>)
    ensures var key := FirstKey(m, VtableKeys(c, base));
      && ((base.None? || base.value == c) && BareVftable(c) in m ==> key == Some(BareVftable(c)))
      && (!((base.None? || base.value == c) && BareVftable(c) in m) && ForVftable(c, base.GetOr(c)) in m ==>
            key == Some(ForVftable(c, base.GetOr(c))))
      && (key.None? <==> !((base.None? || base.value == c) && BareVftable(c) in m) && ForVftable(c, base.GetOr(c)) !in m)
  {
    var keys := VtableKeys(c, base);
    var key := FirstKey(m, keys);
    if key.Some? {
      var i :| 0 <= i < |keys| && keys[i] == key.value;
    }
  }

  /** The index key a recomp-only row contributes, if it takes part in the pass. */
  function RecompKey(k: IndexedPass, kv: Bag): (r: Option<string>)
    ensures k.Symbols? && k.truncate && r.Some? ==> |r.value| <= 255
    ensures k.Symbols? ==> (r.Some? <==> StrAttr(kv, "symbol").Some?)
    ensures k.Vtables? ==> (r.Some? <==> OfType(kv, VTABLE) && StrAttr(kv, "name").Some?)
    ensures k.Variables? ==> (r.Some? <==> (OfType(kv, DATA) || TypeIsNull(kv)) && StrAttr(kv, "name").Some?)
  {
    match k
    case Symbols(truncate) =>
      (match StrAttr(kv, "symbol") case Some(s) => Some(Trunc(s, truncate)) case None => None)
    case Vtables => if OfType(kv, VTABLE) then StrAttr(kv, "name") else None
    case Variables => if OfType(kv, DATA) || TypeIsNull(kv) then StrAttr(kv, "name") else None
  }

  /** The probe an orig-only row makes, if it takes part in the pass. */
  function ProbeOf(k: IndexedPass, addr: int, kv: Bag): (r: Option<Probe>)
    ensures r.Some? ==> r.value.addr == addr && |r.value.keys| > 0
    ensures r.Some? ==> (r.value.reportNonUnique <==> k.Symbols?)
    ensures k.Symbols? && k.truncate && r.Some? ==> |r.value.keys[0]| <= 255
    ensures k.Symbols? ==> (r.Some? <==> StrAttr(kv, "symbol").Some?)
    ensures k.Vtables? ==> (r.Some? <==> OfType(kv, VTABLE) && StrAttr(kv, "name").Some?)
    ensures k.Variables? ==> (r.Some? <==> OfType(kv, DATA) && StrAttr(kv, "name").Some? && !StaticVarIsOne(kv))
  {
    match k
    case Symbols(truncate) =>
      (match StrAttr(kv, "symbol")
       case Some(s) => Some(Probe(addr, [Trunc(s, truncate)], true))
       case None => None)
    case Vtables =>
      if OfType(kv, VTABLE) && StrAttr(kv, "name").Some? then
        Some(Probe(addr, VtableKeys(StrAttr(kv, "name").value, StrAttr(kv, "base_class")), false))
      else None
    case Variables =>
      if OfType(kv, DATA) && StrAttr(kv, "name").Some? && !StaticVarIsOne(kv) then
        Some(Probe(addr, [StrAttr(kv, "name").value], false))
      else None
  }

  /** The same key under both sides: symbols and variables compare the same attribute. */
  lemma SameAttributeSameKey(k: IndexedPass, o: int, okv: Bag, rkv: Bag)
    requires k.Symbols? || k.Variables?
    requires ProbeOf(k, o, okv).Some? && RecompKey(k, rkv).Some?
    ensures RecompKey(k, rkv).value in ProbeOf(k, o, okv).value.keys <==>
      (if k.Symbols? then Trunc(StrAttr(rkv, "symbol").value, k.truncate) == Trunc(StrAttr(okv, "symbol").value, k.truncate)
       else StrAttr(rkv, "name") == StrAttr(okv, "name"))
  {}

  ghost predicate RecompAscending(rows: seq<Entity>)
  {
    && (forall i :: 0 <= i < |rows| ==> rows[i].recomp.Some?)
    && (forall i, j :: 0 <= i < j < |rows| ==> rows[i].recomp.value < rows[j].recomp.value)
  }

  /** The `(key, recomp_addr)` rows the index is built from, in query order. */
  function Entries(k: IndexedPass, rows: seq<Entity>): seq<(string, int)>
    requires forall i :: 0 <= i < |rows| ==> rows[i].recomp.Some?
  {
    if rows == [] then []
    else
      var e := rows[|rows| - 1];
      var r0 := Entries(k, rows[..|rows| - 1]);
      match RecompKey(k, e.kv)
      case None => r0
      case Some(key) => r0 + [(key, e.recomp.value)]
  }

  /** Entry `e` of the index comes from some row with that recomp address and key. */
  ghost predicate Contributes(k: IndexedPass, rows: seq<Entity>, e: (string, int))
  {
    exists i :: 0 <= i < |rows| && rows[i].recomp == Some(e.1) && RecompKey(k, rows[i].kv) == Some(e.0)
  }

  /** Every recomp row that has a key is in the index under it. */
  lemma {:induction false} EntriesComplete(k: IndexedPass, rows: seq<Entity>)
    requires forall i :: 0 <= i < |rows| ==> rows[i].recomp.Some?
    ensures forall i :: 0 <= i < |rows| && RecompKey(k, rows[i].kv).Some? ==>
      (RecompKey(k, rows[i].kv).value, rows[i].recomp.value) in Entries(k, rows)
  {
    if rows != [] {
      var pre := rows[..|rows| - 1];
      EntriesComplete(k, pre);
      forall i | 0 <= i < |pre| ensures rows[i] == pre[i] {}
    }
  }

  /** Every entry of the index comes from a recomp row with that key. */
  lemma {:induction false} EntriesContribute(k: IndexedPass, rows: seq<Entity>)
    requires forall i :: 0 <= i < |rows| ==> rows[i].recomp.Some?
    ensures forall i :: 0 <= i < |Entries(k, rows)| ==> Contributes(k, rows, Entries(k, rows)[i])
  {
    if rows != [] {
      var pre := rows[..|rows| - 1];
      EntriesContribute(k, pre);
      var r0 := Entries(k, pre);
      forall i | 0 <= i < |r0| ensures Contributes(k, rows, r0[i]) {
        assert Contributes(k, pre, r0[i]);
        var j :| 0 <= j < |pre| && pre[j].recomp == Some(r0[i].1) && RecompKey(k, pre[j].kv) == Some(r0[i].0);
        assert rows[j] == pre[j];
      }
      var e := rows[|rows| - 1];
      if RecompKey(k, e.kv).Some? {
        assert Contributes(k, rows, (RecompKey(k, e.kv).value, e.recomp.value));
      }
    }
  }

  /** Entries keep the ascending order of the recomp rows, so no recomp address repeats. */
  lemma {:induction false} EntriesAscending(k: IndexedPass, rows: seq<Entity>)
    requires RecompAscending(rows)
    ensures forall i, j :: 0 <= i < j < |Entries(k, rows)| ==> Entries(k, rows)[i].1 < Entries(k, rows)[j].1
  {
    if rows != [] {
      var pre := rows[..|rows| - 1];
      var e := rows[|rows| - 1];
      EntriesAscending(k, pre);
      EntriesContribute(k, pre);
      var r0 := Entries(k, pre);
      forall i | 0 <= i < |r0| ensures r0[i].1 < e.recomp.value {
        assert Contributes(k, pre, r0[i]);
        var j :| 0 <= j < |pre| && pre[j].recomp == Some(r0[i].1) && RecompKey(k, pre[j].kv) == Some(r0[i].0);
        assert rows[j] == pre[j];
      }
    }
  }

  /** The probes of the orig rows, in query order. */
  function Probes(k: IndexedPass, rows: seq<Entity>): seq<Probe>
    requires forall i :: 0 <= i < |rows| ==> rows[i].orig.Some?
  {
    if rows == [] then []
    else
      var e := rows[|rows| - 1];
      var r0 := Probes(k, rows[..|rows| - 1]);
      match ProbeOf(k, e.orig.value, e.kv)
      case None => r0
      case Some(p) => r0 + [p]
  }

  /** Probe `p` comes from some row with that orig address. */
  ghost predicate Probed(k: IndexedPass, rows: seq<Entity>, p: Probe)
  {
    exists i :: 0 <= i < |rows| && rows[i].orig == Some(p.addr) && ProbeOf(k, p.addr, rows[i].kv) == Some(p)
  }

  /** Every orig row that takes part in the pass makes its probe. */
  lemma {:induction false} ProbesComplete(k: IndexedPass, rows: seq<Entity>)
    requires forall i :: 0 <= i < |rows| ==> rows[i].orig.Some?
    ensures forall i :: 0 <= i < |rows| && ProbeOf(k, rows[i].orig.value, rows[i].kv).Some? ==>
      ProbeOf(k, rows[i].orig.value, rows[i].kv).value in Probes(k, rows)
  {
    if rows != [] {
      var pre := rows[..|rows| - 1];
      ProbesComplete(k, pre);
      forall i | 0 <= i < |pre| ensures rows[i] == pre[i] {}
    }
  }

  /** Every probe comes from an orig row of the pass. */
  lemma {:induction false} ProbesFromRows(k: IndexedPass, rows: seq<Entity>)
    requires forall i :: 0 <= i < |rows| ==> rows[i].orig.Some?
    ensures forall i :: 0 <= i < |Probes(k, rows)| ==> Probed(k, rows, Probes(k, rows)[i])
  {
    if rows != [] {
      var pre := rows[..|rows| - 1];
      ProbesFromRows(k, pre);
      var r0 := Probes(k, pre);
      forall i | 0 <= i < |r0| ensures Probed(k, rows, r0[i]) {
        assert Probed(k, pre, r0[i]);
        var j :| 0 <= j < |pre| && pre[j].orig == Some(r0[i].addr) && ProbeOf(k, r0[i].addr, pre[j].kv) == Some(r0[i]);
        assert rows[j] == pre[j];
      }
      var e := rows[|rows| - 1];
      if ProbeOf(k, e.orig.value, e.kv).Some? {
        assert Probed(k, rows, ProbeOf(k, e.orig.value, e.kv).value);
      }
    }
  }

  /** Probes keep the ascending order of the orig rows they come from. */
  lemma {:induction false} ProbesAscending(k: IndexedPass, rows: seq<Entity>)
    requires AscendingOrig(rows)
    ensures forall i, j :: 0 <= i < j < |Probes(k, rows)| ==> Probes(k, rows)[i].addr < Probes(k, rows)[j].addr
  {
    if rows != [] {
      var pre := rows[..|rows| - 1];
      var e := rows[|rows| - 1];
      ProbesAscending(k, pre);
      ProbesFromRows(k, pre);
      var r0 := Probes(k, pre);
      forall i | 0 <= i < |r0| ensures r0[i].addr < e.orig.value {
        assert Probed(k, pre, r0[i]);
        var j :| 0 <= j < |pre| && pre[j].orig == Some(r0[i].addr) && ProbeOf(k, r0[i].addr, pre[j].kv) == Some(r0[i]);
        assert rows[j] == pre[j];
      }
    }
  }

  /** The whole pass over a table: index the recomp-only rows, probe with the orig-only rows. */
  function IndexPassOf(k: IndexedPass, t: Table): PassState
  {
    Pass(Built(Entries(k, RecompUnmatched(t))), Probes(k, OrigUnmatched(t)))
  }

  /** A matched pair joins an orig-only and a recomp-only row that share a key of the pass. */
  ghost predicate SharesKey(k: IndexedPass, t: Table, m: (int, int))
  {
    && m.0 in t.origRows && m.0 !in t.recompOf && m.1 in t.recompRows
    && RecompKey(k, t.recompRows[m.1]).Some? && ProbeOf(k, m.0, t.origRows[m.0]).Some?
    && RecompKey(k, t.recompRows[m.1]).value in ProbeOf(k, m.0, t.origRows[m.0]).value.keys
  }

  /**
   * Every pair of an indexed pass joins an orig-only and a recomp-only row
   * with a shared key, and no orig or recomp address is used twice.
   */
  lemma IndexPassSound(k: IndexedPass, t: Table)
    ensures NoDup(Origs(IndexPassOf(k, t).matches)) && NoDup(Recomps(IndexPassOf(k, t).matches))
    ensures forall i :: 0 <= i < |IndexPassOf(k, t).matches| ==> SharesKey(k, t, IndexPassOf(k, t).matches[i])
  {
    var es := Entries(k, RecompUnmatched(t));
    var ps := Probes(k, OrigUnmatched(t));
    EntriesAscending(k, RecompUnmatched(t));
    assert NoDup(Recomps(es));
    PassUsesRecompOnce(es, ps);
    PassMatchesAreKeyed(es, ps);
    ProbesAscending(k, OrigUnmatched(t));
    PassOrigsAscending(Built(es), ps);
    var ms := IndexPassOf(k, t).matches;
    forall i | 0 <= i < |ms| ensures SharesKey(k, t, ms[i]) {
      KeyedSharesKey(k, t, ms[i]);
    }
  }

  /** The probe and the index entry that made a keyed pair. */
  lemma KeyedWitness(es: seq<(string, int)>, ps: seq<Probe>, m: (int, int)) returns (j: nat, key: string, q: nat)
    requires Keyed(es, ps, m)
    ensures j < |ps| && ps[j].addr == m.0 && key in ps[j].keys
    ensures q < |es| && es[q] == (key, m.1)
  {
    j, key :| 0 <= j < |ps| && ps[j].addr == m.0 && key in ps[j].keys && (key, m.1) in es;
    q :| 0 <= q < |es| && es[q] == (key, m.1);
  }

  /** A pair keyed by the pass's own entries and probes joins rows that share a key. */
  lemma KeyedSharesKey(k: IndexedPass, t: Table, m: (int, int))
    requires Keyed(Entries(k, RecompUnmatched(t)), Probes(k, OrigUnmatched(t)), m)
    ensures SharesKey(k, t, m)
  {
    var ru := RecompUnmatched(t);
    var ou := OrigUnmatched(t);
    var es := Entries(k, ru);
    var ps := Probes(k, ou);
    var j, key, q := KeyedWitness(es, ps, m);
    EntriesContribute(k, ru);
    ProbesFromRows(k, ou);
    assert Contributes(k, ru, es[q]);
    assert Probed(k, ou, ps[j]);
    var b :| 0 <= b < |ou| && ou[b].orig == Some(ps[j].addr) && ProbeOf(k, ps[j].addr, ou[b].kv) == Some(ps[j]);
    assert ou[b] == EntityAtOrig(t, m.0);
  }

  /** After the commit, every pair of an indexed pass is one matched row. */
  lemma IndexPassLinks(k: IndexedPass, t: Table)
    requires WellFormed(t)
    ensures var ms := IndexPassOf(k, t).matches;
      forall i :: 0 <= i < |ms| ==> ms[i].0 in MatchAll(t, ms).recompOf && MatchAll(t, ms).recompOf[ms[i].0] == ms[i].1
  {
    var ms := IndexPassOf(k, t).matches;
    IndexPassSound(k, t);
    assert forall i :: 0 <= i < |ms| ==> SharesKey(k, t, ms[i]);
    MatchAllLinks(t, ms);
  }

  /** Build the index, walk the orig rows, and commit the pairs. */
  method MatchIndexed(db: EntityDb, k: IndexedPass) returns (events: seq<Event>)
    requires db.Valid()
    modifies db`table, db`types, db`labels
    ensures db.Valid()
    ensures events == IndexPassOf(k, old(db.table)).events
    ensures db.table == MatchAll(old(db.table), IndexPassOf(k, old(db.table)).matches)
    ensures db.types == old(db.types) && db.labels == old(db.labels)
  {
    var t := db.table;
    var matches;
    matches, events := RunIndexPass(Entries(k, RecompUnmatched(t)), Probes(k, OrigUnmatched(t)));
    IndexPassSound(k, t);
    StagedPairsExact(matches);
    CommitMatches(db, matches);
  }

  /** match_symbols: NON_UNIQUE_SYMBOL when the symbol has more recomp rows, NO_MATCH when it has none. */
  method MatchSymbols(db: EntityDb, truncate: bool) returns (events: seq<Event>)
    requires db.Valid()
    modifies db`table, db`types, db`labels
    ensures db.Valid()
    ensures events == IndexPassOf(Symbols(truncate), old(db.table)).events
    ensures db.table == MatchAll(old(db.table), IndexPassOf(Symbols(truncate), old(db.table)).matches)
    ensures db.types == old(db.types) && db.labels == old(db.labels)
  {
    events := MatchIndexed(db, Symbols(truncate));
  }

  /** match_vtables: class name (and base class) to the recomp vtable name. */
  method MatchVtables(db: EntityDb) returns (events: seq<Event>)
    requires db.Valid()
    modifies db`table, db`types, db`labels
    ensures db.Valid()
    ensures events == IndexPassOf(Vtables, old(db.table)).events
    ensures db.table == MatchAll(old(db.table), IndexPassOf(Vtables, old(db.table)).matches)
    ensures db.types == old(db.types) && db.labels == old(db.labels)
  {
    events := MatchIndexed(db, Vtables);
  }

  /** match_variables: non-static DATA rows by name to DATA or untyped recomp rows. */
  method MatchVariables(db: EntityDb) returns (events: seq<Event>)
    requires db.Valid()
    modifies db`table, db`types, db`labels
    ensures db.Valid()
    ensures events == IndexPassOf(Variables, old(db.table)).events
    ensures db.table == MatchAll(old(db.table), IndexPassOf(Variables, old(db.table)).matches)
    ensures db.types == old(db.types) && db.labels == old(db.labels)
  {
    events := MatchIndexed(db, Variables);
  }

  // ---------------------------------------------------------------------
  // The rank joins: functions, strings, references

  /** No pair occurs twice, and two pairs share their orig address exactly when they share their recomp address. */
  predicate OneToOne(pairs: seq<(int, int)>)
  {
    && (forall i, j :: 0 <= i < j < |pairs| ==> pairs[i] != pairs[j])
    && (forall i, j :: 0 <= i < |pairs| && 0 <= j < |pairs| ==> (pairs[i].0 == pairs[j].0 <==> pairs[i].1 == pairs[j].1))
  }

  /** Such pairs use every orig and every recomp address at most once, so they are staged as given. */
  lemma OneToOneStaged(pairs: seq<(int, int)>)
    requires OneToOne(pairs)
    ensures NoDup(Origs(pairs)) && NoDup(Recomps(pairs))
    ensures StagedPairs(pairs).0 == pairs
  {
    forall i, j | 0 <= i < j < |pairs| ensures Origs(pairs)[i] != Origs(pairs)[j] && Recomps(pairs)[i] != Recomps(pairs)[j] {
      assert pairs[i] != pairs[j];
    }
    StagedPairsExact(pairs);
  }

  /** The orig and recomp address of each row of get_matches_for_type_and_label. */
  function LabelPairs(rows: seq<LabelMatch>): (r: seq<(int, int)>)
    ensures |r| == |rows| && forall i :: 0 <= i < |r| ==> r[i] == (rows[i].orig, rows[i].recomp)
  {
    seq(|rows|, i requires 0 <= i < |rows| => (rows[i].orig, rows[i].recomp))
  }

  /** The rows of get_matches_for_type_and_label, each once, in some order. */
  predicate LabelRows(rows: seq<LabelMatch>, result: set<LabelMatch>)
  {
    && (set i | 0 <= i < |rows| :: rows[i]) == result
    && forall i, j :: 0 <= i < j < |rows| ==> rows[i] != rows[j]
  }

  /** No address occurs in two rows of the query, so its pairs are one-to-one. */
  lemma LabelPairsOneToOne(db: EntityDb, ty: EntityType, truncate: bool, rows: seq<LabelMatch>)
    requires LabelRows(rows, TypeLabelMatches(db.labels, db.types, db.table, ty, truncate))
    ensures OneToOne(LabelPairs(rows))
  {
    var ps := LabelPairs(rows);
    forall i, j | 0 <= i < |rows| && 0 <= j < |rows|
      ensures (ps[i].0 == ps[j].0 <==> ps[i].1 == ps[j].1) && (i < j ==> ps[i] != ps[j])
    {
      assert rows[i] in TypeLabelMatches(db.labels, db.types, db.table, ty, truncate);
      assert rows[j] in TypeLabelMatches(db.labels, db.types, db.table, ty, truncate);
      TypeLabelMatchesSound(db.labels, db.types, db.table, ty, truncate, rows[i], rows[j]);
    }
  }

  /** AMBIGUOUS_MATCH for every row that is not unique, in row order. */
  function AmbiguousEvents(rows: seq<LabelMatch>): seq<Event>
  {
    if rows == [] then []
    else
      var last := rows[|rows| - 1];
      AmbiguousEvents(rows[..|rows| - 1]) + (if last.unique then [] else [Event(AmbiguousMatch, last.orig)])
  }

  /** Every event is AMBIGUOUS_MATCH, and it is reported exactly for the orig address of a row that is not unique. */
  lemma {:induction false} AmbiguousEventsExact(rows: seq<LabelMatch>)
    ensures forall e :: e in AmbiguousEvents(rows) ==> e.kind == AmbiguousMatch
    ensures forall i :: 0 <= i < |rows| && !rows[i].unique ==> Event(AmbiguousMatch, rows[i].orig) in AmbiguousEvents(rows)
    ensures forall e :: e in AmbiguousEvents(rows) ==> exists i :: 0 <= i < |rows| && !rows[i].unique && rows[i].orig == e.addr
    ensures |AmbiguousEvents(rows)| <= |rows|
  {
    if rows != [] {
      var pre := rows[..|rows| - 1];
      AmbiguousEventsExact(pre);
      forall e | e in AmbiguousEvents(pre)
        ensures exists i :: 0 <= i < |rows| && !rows[i].unique && rows[i].orig == e.addr
      {
        var i :| 0 <= i < |pre| && !pre[i].unique && pre[i].orig == e.addr;
        assert rows[i] == pre[i];
      }
      forall i | 0 <= i < |pre| ensures rows[i] == pre[i] {}
    }
  }

  lemma AmbiguousStep(rows: seq<LabelMatch>, i: int)
    requires 0 <= i < |rows|
    ensures AmbiguousEvents(rows[..i + 1]) ==
      AmbiguousEvents(rows[..i]) + (if rows[i].unique then [] else [Event(AmbiguousMatch, rows[i].orig)])
  {
    assert rows[..i + 1][..i] == rows[..i];
  }

  /** match_functions: commit every row of the FUNCTION label join, reporting the ambiguous ones. */
  method MatchFunctions(db: EntityDb, rows: seq<LabelMatch>, truncate: bool) returns (events: seq<Event>)
    requires db.Valid()
    requires LabelRows(rows, TypeLabelMatches(db.labels, db.types, db.table, FUNCTION, truncate))
    modifies db`table, db`types, db`labels
    ensures db.Valid()
    ensures events == AmbiguousEvents(rows)
    ensures db.table == MatchAll(old(db.table), LabelPairs(rows))
    ensures db.types == old(db.types) && db.labels == old(db.labels)
  {
    LabelPairsOneToOne(db, FUNCTION, truncate, rows);
    events := CommitLabelRows(db, rows);
  }

  /** The batch of match_functions: stage every row, then commit. */
  method CommitLabelRows(db: EntityDb, rows: seq<LabelMatch>) returns (events: seq<Event>)
    requires db.Valid() && OneToOne(LabelPairs(rows))
    modifies db`table, db`types, db`labels
    ensures db.Valid()
    ensures events == AmbiguousEvents(rows)
    ensures db.table == MatchAll(old(db.table), LabelPairs(rows))
    ensures db.types == old(db.types) && db.labels == old(db.labels)
  {
    var batch;
    batch, events := StageLabelBatch(db, rows);
    CommitStaged(db, batch);
  }

  /** A fresh batch on `db` holding exactly the matches of the rows. */
  method StageLabelBatch(db: EntityDb, rows: seq<LabelMatch>) returns (batch: EntityBatch, events: seq<Event>)
    requires db.Valid() && OneToOne(LabelPairs(rows))
    ensures fresh(batch) && batch.base == db && batch.Valid()
    ensures batch.origInsert == [] && batch.recompInsert == [] && batch.origSet == [] && batch.recompSet == []
    ensures batch.types == map[] && batch.labels == map[] && batch.recompAddr == []
    ensures batch.origToRecomp == LabelPairs(rows)
    ensures events == AmbiguousEvents(rows)
  {
    OneToOneStaged(LabelPairs(rows));
    batch := new EntityBatch(db);
    events := StageLabelRows(batch, rows);
  }

  /** The loop of match_functions: report each ambiguous row and stage its match. */
  method StageLabelRows(batch: EntityBatch, rows: seq<LabelMatch>) returns (events: seq<Event>)
    requires batch.Valid() && batch.origToRecomp == [] && batch.recompToOrig == []
    modifies batch`origToRecomp, batch`recompToOrig
    ensures batch.Valid()
    ensures batch.origToRecomp == StagedPairs(LabelPairs(rows)).0
    ensures batch.recompToOrig == StagedPairs(LabelPairs(rows)).1
    ensures events == AmbiguousEvents(rows)
  {
    var pairs := LabelPairs(rows);
    events := [];
    var i := 0;
    while i < |rows|
      invariant 0 <= i <= |rows|
      invariant batch.Valid()
      invariant (batch.origToRecomp, batch.recompToOrig) == StagedPairs(pairs[..i])
      invariant events == AmbiguousEvents(rows[..i])
    {
      AmbiguousStep(rows, i);
      if !rows[i].unique {
        events := events + [Event(AmbiguousMatch, rows[i].orig)];
      }
      MatchPairAt(batch, pairs, i);
      i := i + 1;
    }
    assert rows[..|rows|] == rows && pairs[..|pairs|] == pairs;
  }

  /** The pairs of a join query, each once, in some order. */
  predicate JoinRows(rows: seq<(int, int)>, result: set<(int, int)>)
  {
    && (set i | 0 <= i < |rows| :: rows[i]) == result
    && forall i, j :: 0 <= i < j < |rows| ==> rows[i] != rows[j]
  }

  /** match_strings: commit the k-th orig and k-th recomp STRING with the same bytes. */
  method MatchStrings(db: EntityDb, rows: seq<(int, int)>)
    requires db.Valid() && JoinRows(rows, StringPairs(db.raw, db.types))
    modifies db`table, db`types, db`labels
    ensures db.Valid()
    ensures db.table == MatchAll(old(db.table), rows)
    ensures db.types == old(db.types) && db.labels == old(db.labels)
  {
    forall i, j | 0 <= i < |rows| && 0 <= j < |rows| ensures rows[i].0 == rows[j].0 <==> rows[i].1 == rows[j].1 {
      assert rows[i] in StringPairs(db.raw, db.types) && rows[j] in StringPairs(db.raw, db.types);
      StringPairsSound(db.raw, db.types, rows[i], rows[j]);
    }
    OneToOneStaged(rows);
    CommitMatches(db, rows);
  }

  /** match_ref: commit the k-th orig and k-th recomp thunk that refer to the same row. */
  method MatchRef(db: EntityDb, rows: seq<(int, int)>)
    requires db.Valid() && JoinRows(rows, RefPairs(db.table))
    modifies db`table, db`types, db`labels
    ensures db.Valid()
    ensures db.table == MatchAll(old(db.table), rows)
    ensures db.types == old(db.types) && db.labels == old(db.labels)
  {
    forall i, j | 0 <= i < |rows| && 0 <= j < |rows| ensures rows[i].0 == rows[j].0 <==> rows[i].1 == rows[j].1 {
      assert rows[i] in RefPairs(db.table) && rows[j] in RefPairs(db.table);
      RefPairsInjective(db.table, rows[i], rows[j]);
    }
    OneToOneStaged(rows);
    CommitMatches(db, rows);
  }

  // ---------------------------------------------------------------------
  // match_static_variables

  /** The orig rows the outer query selects: `static_var = 1` and a name. */
  predicate StaticVar(e: Entity)
  {
    StaticVarIsOne(e.kv) && StrAttr(e.kv, "name").Some?
  }

  /** `func.symbol` of the row whose orig address is the variable's `parent_function` (the left join). */
  function ParentSymbol(t: Table, kv: Bag): Option<string>
  {
    if "parent_function" in kv && kv["parent_function"].JInt? && kv["parent_function"].i in t.origRows
    then StrAttr(t.origRows[kv["parent_function"].i], "symbol")
    else None
  }

  /** A row the inner query selects: DATA or untyped, with a symbol LIKE `%name%function symbol%`. */
  predicate StaticCandidate(kv: Bag, name: string, fsym: string)
  {
    && (OfType(kv, DATA) || TypeIsNull(kv))
    && StrAttr(kv, "symbol").Some?
    && SqlLike.Like(StrAttr(kv, "symbol").value, SqlLike.Pattern(name, fsym))
  }

  /** The position of the first row of the inner query, if it yields any. */
  function FirstCandidate(rows: seq<Entity>, name: string, fsym: string): (r: Option<nat>)
    ensures r.Some? ==> r.value < |rows| && StaticCandidate(rows[r.value].kv, name, fsym)
    ensures r.Some? ==> forall j :: 0 <= j < r.value ==> !StaticCandidate(rows[j].kv, name, fsym)
    ensures r.None? ==> forall j :: 0 <= j < |rows| ==> !StaticCandidate(rows[j].kv, name, fsym)
  {
    if rows == [] then None
    else if StaticCandidate(rows[0].kv, name, fsym) then Some(0)
    else match FirstCandidate(rows[1..], name, fsym)
      case None => None
      case Some(j) => Some(j + 1)
  }

  /** What one orig row contributes: a pair to stage, or a NO_MATCH report, or nothing. */
  function StaticStep(t: Table, e: Entity): (Option<(int, int)>, seq<Event>)
    requires e.orig.Some?
  {
    if !StaticVar(e) then (None, [])
    else match ParentSymbol(t, e.kv)
      case None => (None, [Event(NoMatch, e.orig.value)])
      case Some(fsym) =>
        var ru := RecompUnmatched(t);
        match FirstCandidate(ru, StrAttr(e.kv, "name").value, fsym)
        case None => (None, [Event(NoMatch, e.orig.value)])
        case Some(j) => (Some((e.orig.value, ru[j].recomp.value)), [])
  }

  function OptSeq<T>(o: Option<T>): seq<T>
  {
    if o.Some? then [o.value] else []
  }

  /** The pairs staged and the events reported over the outer query's rows, in order. */
  function StaticPass(t: Table, rows: seq<Entity>): (seq<(int, int)>, seq<Event>)
    requires forall i :: 0 <= i < |rows| ==> rows[i].orig.Some?
  {
    if rows == [] then ([], [])
    else
      var s := StaticPass(t, rows[..|rows| - 1]);
      var step := StaticStep(t, rows[|rows| - 1]);
      (s.0 + OptSeq(step.0), s.1 + step.1)
  }

  /**
   * Each staged pair joins a static variable whose parent function has a
   * symbol to the first recomp-only row of the inner query: DATA or untyped,
   * its symbol holding the variable name and then the function symbol.
   */
  lemma StaticStepPair(t: Table, e: Entity)
    requires e.orig.Some? && StaticStep(t, e).0.Some?
    ensures var p := StaticStep(t, e).0.value;
      && p.0 == e.orig.value && StaticVar(e) && ParentSymbol(t, e.kv).Some?
      && p.1 in t.recompRows
      && StaticCandidate(t.recompRows[p.1], StrAttr(e.kv, "name").value, ParentSymbol(t, e.kv).value)
      && forall r :: r in t.recompRows && r < p.1 ==>
           !StaticCandidate(t.recompRows[r], StrAttr(e.kv, "name").value, ParentSymbol(t, e.kv).value)
  {
    var ru := RecompUnmatched(t);
    var name, fsym := StrAttr(e.kv, "name").value, ParentSymbol(t, e.kv).value;
    var j := FirstCandidate(ru, name, fsym).value;
    assert StaticStep(t, e).0.value == (e.orig.value, ru[j].recomp.value);
    FirstOfUnmatched(t, ru, name, fsym, j);
  }

  /**
   * In a list of the recomp-only rows ordered by recomp address, the first
   * candidate is the candidate with the lowest recomp address.
   */
  lemma FirstOfUnmatched(t: Table, ru: seq<Entity>, name: string, fsym: string, j: nat)
    requires forall i :: 0 <= i < |ru| ==> (ru[i].recomp.Some? && ru[i].orig.None?
      && ru[i].recomp.value in t.recompRows && ru[i].kv == t.recompRows[ru[i].recomp.value])
    requires forall i, k :: 0 <= i < k < |ru| ==> ru[i].recomp.value < ru[k].recomp.value
    requires forall r :: r in t.recompRows ==> exists i :: 0 <= i < |ru| && ru[i].recomp == Some(r)
    requires j < |ru| && StaticCandidate(ru[j].kv, name, fsym)
    requires forall i :: 0 <= i < j ==> !StaticCandidate(ru[i].kv, name, fsym)
    ensures ru[j].recomp.value in t.recompRows && StaticCandidate(t.recompRows[ru[j].recomp.value], name, fsym)
    ensures forall r :: r in t.recompRows && r < ru[j].recomp.value ==> !StaticCandidate(t.recompRows[r], name, fsym)
  {
    forall r | r in t.recompRows && r < ru[j].recomp.value
      ensures !StaticCandidate(t.recompRows[r], name, fsym)
    {
      var k :| 0 <= k < |ru| && ru[k].recomp == Some(r);
      assert k < j;
    }
  }

  /** Where an unmatched recomp row sits in the ordered list of unmatched rows. */
  lemma UnmatchedIndex(t: Table, r: int) returns (k: nat)
    requires r in t.recompRows
    ensures k < |RecompUnmatched(t)| && RecompUnmatched(t)[k].recomp == Some(r)
  {
    var ru := RecompUnmatched(t);
    k :| 0 <= k < |ru| && ru[k].recomp == Some(r);
  }

  /** NO_MATCH is reported for a static variable exactly when it gets no pair. */
  lemma StaticStepReports(t: Table, e: Entity)
    requires e.orig.Some?
    ensures StaticStep(t, e).1 == (if StaticVar(e) && StaticStep(t, e).0.None? then [Event(NoMatch, e.orig.value)] else [])
  {}

  /** The loop of the inner query: the first recomp row it yields, if any. */
  method FindCandidate(rows: seq<Entity>, name: string, fsym: string) returns (r: Option<nat>)
    ensures r == FirstCandidate(rows, name, fsym)
  {
    var j := 0;
    while j < |rows|
      invariant 0 <= j <= |rows|
      invariant forall k :: 0 <= k < j ==> !StaticCandidate(rows[k].kv, name, fsym)
    {
      if StaticCandidate(rows[j].kv, name, fsym) {
        return Some(j);
      }
      j := j + 1;
    }
    return None;
  }

  lemma StaticPassStep(t: Table, rows: seq<Entity>, i: int)
    requires forall k :: 0 <= k < |rows| ==> rows[k].orig.Some?
    requires 0 <= i < |rows|
    ensures var s := StaticPass(t, rows[..i]); var step := StaticStep(t, rows[i]);
      StaticPass(t, rows[..i + 1]) == (s.0 + OptSeq(step.0), s.1 + step.1)
  {
    assert rows[..i + 1][..i] == rows[..i];
  }

  lemma StagedPairsSnoc(pairs: seq<(int, int)>, p: (int, int))
    ensures var s := StagedPairs(pairs); StagedPairs(pairs + [p]) == StageMatch(s.0, s.1, p.0, p.1)
  {
    assert (pairs + [p])[..|pairs|] == pairs;
  }

  /** The outer loop of match_static_variables over a fixed table. */
  method StageStatics(batch: EntityBatch, t: Table, rows: seq<Entity>) returns (events: seq<Event>)
    requires forall i :: 0 <= i < |rows| ==> rows[i].orig.Some?
    requires batch.Valid() && batch.origToRecomp == [] && batch.recompToOrig == []
    modifies batch`origToRecomp, batch`recompToOrig
    ensures batch.Valid()
    ensures (batch.origToRecomp, batch.recompToOrig) == StagedPairs(StaticPass(t, rows).0)
    ensures events == StaticPass(t, rows).1
  {
    events := [];
    var i := 0;
    while i < |rows|
      invariant 0 <= i <= |rows|
      invariant batch.Valid()
      invariant (batch.origToRecomp, batch.recompToOrig) == StagedPairs(StaticPass(t, rows[..i]).0)
      invariant events == StaticPass(t, rows[..i]).1
    {
      StaticPassStep(t, rows, i);
      var ev := StageStatic(batch, t, StaticPass(t, rows[..i]).0, rows[i]);
      events := events + ev;
      i := i + 1;
    }
    assert rows[..|rows|] == rows;
  }

  /** One row of the outer query: report it, or look for its recomp row and stage the match. */
  method StageStatic(batch: EntityBatch, t: Table, ghost staged: seq<(int, int)>, e: Entity) returns (events: seq<Event>)
    requires e.orig.Some?
    requires batch.Valid() && (batch.origToRecomp, batch.recompToOrig) == StagedPairs(staged)
    modifies batch`origToRecomp, batch`recompToOrig
    ensures batch.Valid()
    ensures (batch.origToRecomp, batch.recompToOrig) == StagedPairs(staged + OptSeq(StaticStep(t, e).0))
    ensures events == StaticStep(t, e).1
  {
    events := [];
    if StaticVar(e) {
      var fsym := ParentSymbol(t, e.kv);
      if fsym.None? {
        events := [Event(NoMatch, e.orig.value)];
      } else {
        var ru := RecompUnmatched(t);
        var j := FindCandidate(ru, StrAttr(e.kv, "name").value, fsym.value);
        if j.None? {
          events := [Event(NoMatch, e.orig.value)];
        } else {
          StagedPairsSnoc(staged, (e.orig.value, ru[j.value].recomp.value));
          batch.Match(e.orig.value, ru[j.value].recomp.value);
        }
      }
    }
    assert staged + [] == staged;
  }

  /**
   * match_static_variables. The inner query reads the table as it was before
   * the batch, so two variables may claim the same recomp row; the later
   * claim wins.
   */
  method MatchStaticVariables(db: EntityDb) returns (events: seq<Event>)
    requires db.Valid()
    modifies db`table, db`types, db`labels
    ensures db.Valid()
    ensures events == StaticPass(old(db.table), OrigUnmatched(old(db.table))).1
    ensures db.table == MatchAll(old(db.table), StagedPairs(StaticPass(old(db.table), OrigUnmatched(old(db.table))).0).0)
    ensures db.types == old(db.types) && db.labels == old(db.labels)
  {
    var batch := new EntityBatch(db);
    events := StageStatics(batch, db.table, OrigUnmatched(db.table));
    CommitStaged(db, batch);
  }

  /** Every pair of the pass is the pair of one of its rows, and every event the event of one of its rows. */
  lemma {:induction false} StaticPassFromSteps(t: Table, rows: seq<Entity>)
    requires forall i :: 0 <= i < |rows| ==> rows[i].orig.Some?
    ensures forall p :: p in StaticPass(t, rows).0 ==> exists k :: 0 <= k < |rows| && StaticStep(t, rows[k]).0 == Some(p)
    ensures forall e :: e in StaticPass(t, rows).1 ==> exists k :: 0 <= k < |rows| && e in StaticStep(t, rows[k]).1
  {
    if rows != [] {
      var pre := rows[..|rows| - 1];
      var last := rows[|rows| - 1];
      StaticPassFromSteps(t, pre);
      forall p | p in StaticPass(t, rows).0
        ensures exists k :: 0 <= k < |rows| && StaticStep(t, rows[k]).0 == Some(p)
      {
        if p in StaticPass(t, pre).0 {
          var k :| 0 <= k < |pre| && StaticStep(t, pre[k]).0 == Some(p);
          assert rows[k] == pre[k];
        } else {
          assert StaticStep(t, rows[|rows| - 1]).0 == Some(p);
        }
      }
      forall e | e in StaticPass(t, rows).1
        ensures exists k :: 0 <= k < |rows| && e in StaticStep(t, rows[k]).1
      {
        if e in StaticPass(t, pre).1 {
          var k :| 0 <= k < |pre| && e in StaticStep(t, pre[k]).1;
          assert rows[k] == pre[k];
        } else {
          assert e in StaticStep(t, rows[|rows| - 1]).1;
        }
      }
    }
  }

  // ---------------------------------------------------------------------
  // match_lines

  /** `json_extract(kvstore, '$.line')` as a number: JSON true and false read back as 1 and 0. */
  function LineAttr(kv: Bag): Option<int>
  {
    if "line" !in kv then None
    else match kv["line"]
      case JInt(i) => Some(i)
      case JBool(b) => Some(if b then 1 else 0)
      case _ => None
  }

  /**
   * `search_line(filename, line + 1)` for one LINE row. A missing or
   * non-numeric line fails at `line + 1`, a missing or non-text filename at
   * `Path(filename)`: both raise TypeError. `pathOf` is the conversion of the
   * recorded file name to a path.
   */
  function LineLookup(lineMap: map<Lines.Parts, map<int, int>>, pathOf: string -> Lines.Parts, kv: Bag): (r: Result<Option<int>>)
    ensures r.Err? <==> LineAttr(kv).None? || StrAttr(kv, "filename").None?
    ensures r.Ok? ==> r.value == Lines.SearchLine(lineMap, pathOf(StrAttr(kv, "filename").value), LineAttr(kv).value + 1, None)
  {
    if LineAttr(kv).None? || StrAttr(kv, "filename").None? then Err(TypeError)
    else Ok(Lines.SearchLine(lineMap, pathOf(StrAttr(kv, "filename").value), LineAttr(kv).value + 1, None))
  }

  /** The state of the match_lines loop: recomp addresses staged, reports, and whether it raised. */
  datatype LineState = LineState(pairs: seq<(int, int)>, events: seq<Event>, raised: bool)

  function LineStep(s: LineState, lineMap: map<Lines.Parts, map<int, int>>, pathOf: string -> Lines.Parts, e: Entity): LineState
    requires e.orig.Some?
  {
    if s.raised || !OfType(e.kv, LINE) then s
    else match LineLookup(lineMap, pathOf, e.kv)
      case Err(_) => s.(raised := true)
      case Ok(None) => s.(events := s.events + [Event(NoMatch, e.orig.value)])
      case Ok(Some(a)) => s.(pairs := s.pairs + [(e.orig.value, a)])
  }

  /** The loop over the orig-only LINE rows, stopping at the first TypeError. */
  function LinePass(lineMap: map<Lines.Parts, map<int, int>>, pathOf: string -> Lines.Parts, rows: seq<Entity>): LineState
    requires forall i :: 0 <= i < |rows| ==> rows[i].orig.Some?
  {
    if rows == [] then LineState([], [], false)
    else LineStep(LinePass(lineMap, pathOf, rows[..|rows| - 1]), lineMap, pathOf, rows[|rows| - 1])
  }

  /** Pair `p` comes from a LINE row at `p.0` whose line + 1 is the one line recorded at `p.1`. */
  ghost predicate PairFromRow(lineMap: map<Lines.Parts, map<int, int>>, pathOf: string -> Lines.Parts, rows: seq<Entity>, p: (int, int))
  {
    exists k :: 0 <= k < |rows| && rows[k].orig == Some(p.0) && OfType(rows[k].kv, LINE)
      && LineLookup(lineMap, pathOf, rows[k].kv) == Ok(Some(p.1))
  }

  /** Event `ev` is NO_MATCH for a LINE row whose search found nothing. */
  ghost predicate NoLineFound(lineMap: map<Lines.Parts, map<int, int>>, pathOf: string -> Lines.Parts, rows: seq<Entity>, ev: Event)
  {
    ev.kind == NoMatch &&
    exists k :: 0 <= k < |rows| && rows[k].orig == Some(ev.addr) && OfType(rows[k].kv, LINE)
      && LineLookup(lineMap, pathOf, rows[k].kv) == Ok(None)
  }

  /** Each staged pair comes from a LINE row and the one line recorded just below the annotation. */
  lemma {:induction false} LinePassPairs(lineMap: map<Lines.Parts, map<int, int>>, pathOf: string -> Lines.Parts, rows: seq<Entity>)
    requires forall i :: 0 <= i < |rows| ==> rows[i].orig.Some?
    ensures forall i :: 0 <= i < |LinePass(lineMap, pathOf, rows).pairs| ==>
      PairFromRow(lineMap, pathOf, rows, LinePass(lineMap, pathOf, rows).pairs[i])
  {
    if rows != [] {
      var pre := rows[..|rows| - 1];
      LinePassPairs(lineMap, pathOf, pre);
      var s0 := LinePass(lineMap, pathOf, pre);
      forall i | 0 <= i < |s0.pairs| ensures PairFromRow(lineMap, pathOf, rows, s0.pairs[i]) {
        assert PairFromRow(lineMap, pathOf, pre, s0.pairs[i]);
        var k :| 0 <= k < |pre| && pre[k].orig == Some(s0.pairs[i].0) && OfType(pre[k].kv, LINE)
          && LineLookup(lineMap, pathOf, pre[k].kv) == Ok(Some(s0.pairs[i].1));
        assert rows[k] == pre[k];
      }
      var st := LinePass(lineMap, pathOf, rows);
      if |st.pairs| > |s0.pairs| {
        assert PairFromRow(lineMap, pathOf, rows, st.pairs[|s0.pairs|]) by {
          assert rows[|rows| - 1].orig == Some(st.pairs[|s0.pairs|].0);
        }
      }
    }
  }

  /** Each event is NO_MATCH for a LINE row whose search found no single line. */
  lemma {:induction false} LinePassEvents(lineMap: map<Lines.Parts, map<int, int>>, pathOf: string -> Lines.Parts, rows: seq<Entity>)
    requires forall i :: 0 <= i < |rows| ==> rows[i].orig.Some?
    ensures forall i :: 0 <= i < |LinePass(lineMap, pathOf, rows).events| ==>
      NoLineFound(lineMap, pathOf, rows, LinePass(lineMap, pathOf, rows).events[i])
  {
    if rows != [] {
      var pre := rows[..|rows| - 1];
      LinePassEvents(lineMap, pathOf, pre);
      var s0 := LinePass(lineMap, pathOf, pre);
      forall i | 0 <= i < |s0.events| ensures NoLineFound(lineMap, pathOf, rows, s0.events[i]) {
        assert NoLineFound(lineMap, pathOf, pre, s0.events[i]);
        var k :| 0 <= k < |pre| && pre[k].orig == Some(s0.events[i].addr) && OfType(pre[k].kv, LINE)
          && LineLookup(lineMap, pathOf, pre[k].kv) == Ok(None);
        assert rows[k] == pre[k];
      }
      var st := LinePass(lineMap, pathOf, rows);
      if |st.events| > |s0.events| {
        assert NoLineFound(lineMap, pathOf, rows, st.events[|s0.events|]) by {
          assert rows[|rows| - 1].orig == Some(st.events[|s0.events|].addr);
        }
      }
    }
  }

  /** The pairs follow the ascending orig rows, so no orig address is staged twice. */
  lemma {:induction false} LinePassAscending(lineMap: map<Lines.Parts, map<int, int>>, pathOf: string -> Lines.Parts, rows: seq<Entity>)
    requires AscendingOrig(rows)
    ensures forall i, j :: 0 <= i < j < |LinePass(lineMap, pathOf, rows).pairs| ==>
      LinePass(lineMap, pathOf, rows).pairs[i].0 < LinePass(lineMap, pathOf, rows).pairs[j].0
  {
    if rows != [] {
      var pre := rows[..|rows| - 1];
      var e := rows[|rows| - 1];
      LinePassAscending(lineMap, pathOf, pre);
      LinePassPairs(lineMap, pathOf, pre);
      var s0 := LinePass(lineMap, pathOf, pre);
      forall i | 0 <= i < |s0.pairs| ensures s0.pairs[i].0 < e.orig.value {
        assert PairFromRow(lineMap, pathOf, pre, s0.pairs[i]);
        var k :| 0 <= k < |pre| && pre[k].orig == Some(s0.pairs[i].0) && OfType(pre[k].kv, LINE)
          && LineLookup(lineMap, pathOf, pre[k].kv) == Ok(Some(s0.pairs[i].1));
        assert rows[k] == pre[k];
      }
    }
  }

  /** The batch's `_recomp_addr` after set_recomp_addr on each pair in order. */
  function PutAll(pairs: seq<(int, int)>): (d: Dict<int, int>)
    ensures DistinctKeys(d)
  {
    if pairs == [] then [] else Put(PutAll(pairs[..|pairs| - 1]), pairs[|pairs| - 1].0, pairs[|pairs| - 1].1)
  }

  /** With ascending orig addresses every set_recomp_addr adds a new key, so the dict holds the pairs as given. */
  lemma {:induction false} PutAllFresh(pairs: seq<(int, int)>)
    requires forall i, j :: 0 <= i < j < |pairs| ==> pairs[i].0 < pairs[j].0
    ensures PutAll(pairs) == pairs
  {
    if pairs != [] {
      var pre := pairs[..|pairs| - 1];
      var last := pairs[|pairs| - 1];
      PutAllFresh(pre);
      assert !HasKey(pre, last.0) by {
        forall i | 0 <= i < |pre| ensures pre[i].0 != last.0 { assert pairs[i].0 < last.0; }
      }
      PutAllSnoc(pairs);
    }
  }

  /** The last pair's key new to the others, it goes to the end. */
  lemma PutAllSnoc(pairs: seq<(int, int)>)
    requires pairs != [] && PutAll(pairs[..|pairs| - 1]) == pairs[..|pairs| - 1]
    requires !HasKey(pairs[..|pairs| - 1], pairs[|pairs| - 1].0)
    ensures PutAll(pairs) == pairs
  {
    var pre := pairs[..|pairs| - 1];
    var last := pairs[|pairs| - 1];
    PutNew(pre, last.0, last.1);
    assert pre + [(last.0, last.1)] == pairs;
  }

  lemma LinePassStep(lineMap: map<Lines.Parts, map<int, int>>, pathOf: string -> Lines.Parts, rows: seq<Entity>, i: int)
    requires forall k :: 0 <= k < |rows| ==> rows[k].orig.Some?
    requires 0 <= i < |rows|
    ensures LinePass(lineMap, pathOf, rows[..i + 1]) == LineStep(LinePass(lineMap, pathOf, rows[..i]), lineMap, pathOf, rows[i])
  {
    assert rows[..i + 1][..i] == rows[..i];
  }

  /** Once the loop has raised, the later rows change nothing. */
  lemma {:induction false} LinePassRaised(lineMap: map<Lines.Parts, map<int, int>>, pathOf: string -> Lines.Parts, rows: seq<Entity>, i: int)
    requires forall k :: 0 <= k < |rows| ==> rows[k].orig.Some?
    requires 0 <= i <= |rows| && LinePass(lineMap, pathOf, rows[..i]).raised
    ensures LinePass(lineMap, pathOf, rows) == LinePass(lineMap, pathOf, rows[..i])
    decreases |rows| - i
  {
    if i < |rows| {
      LinePassStep(lineMap, pathOf, rows, i);
      LinePassRaised(lineMap, pathOf, rows, i + 1);
    } else {
      assert rows[..i] == rows;
    }
  }

  /** The loop of match_lines: look up each LINE row and stage its recomp address, until a TypeError. */
  method StageLines(batch: EntityBatch, lineMap: map<Lines.Parts, map<int, int>>, pathOf: string -> Lines.Parts, rows: seq<Entity>)
    returns (events: seq<Event>, raised: bool)
    requires forall i :: 0 <= i < |rows| ==> rows[i].orig.Some?
    requires batch.Valid() && batch.recompAddr == []
    modifies batch`recompAddr
    ensures batch.Valid()
    ensures batch.recompAddr == PutAll(LinePass(lineMap, pathOf, rows).pairs)
    ensures events == LinePass(lineMap, pathOf, rows).events && raised == LinePass(lineMap, pathOf, rows).raised
  {
    ghost var pairs: seq<(int, int)> := [];
    events, raised := [], false;
    var i := 0;
    while i < |rows|
      invariant 0 <= i <= |rows|
      invariant batch.Valid() && batch.recompAddr == PutAll(pairs)
      invariant LinePass(lineMap, pathOf, rows[..i]) == LineState(pairs, events, false)
    {
      var ev;
      ev, raised := StageLine(batch, lineMap, pathOf, pairs, rows[i]);
      ghost var pairs' := LineStep(LineState(pairs, [], false), lineMap, pathOf, rows[i]).pairs;
      LinePassNext(lineMap, pathOf, rows, i, pairs, events, pairs', ev, raised);
      events := events + ev;
      pairs := pairs';
      if raised {
        return;
      }
      i := i + 1;
    }
    assert rows[..|rows|] == rows;
  }

  /** One more row of the loop of match_lines, and the whole pass once it has raised. */
  lemma LinePassNext(lineMap: map<Lines.Parts, map<int, int>>, pathOf: string -> Lines.Parts, rows: seq<Entity>, i: int,
                     pairs: seq<(int, int)>, events: seq<Event>, pairs': seq<(int, int)>, ev: seq<Event>, raised: bool)
    requires forall k :: 0 <= k < |rows| ==> rows[k].orig.Some?
    requires 0 <= i < |rows| && LinePass(lineMap, pathOf, rows[..i]) == LineState(pairs, events, false)
    requires var st := LineStep(LineState(pairs, [], false), lineMap, pathOf, rows[i]);
      pairs' == st.pairs && ev == st.events && raised == st.raised
    ensures LinePass(lineMap, pathOf, rows[..i + 1]) == LineState(pairs', events + ev, raised)
    ensures raised ==> LinePass(lineMap, pathOf, rows) == LineState(pairs', events + ev, raised)
  {
    LinePassStep(lineMap, pathOf, rows, i);
    LineStepSplit(pairs, events, lineMap, pathOf, rows[i]);
    if raised {
      LinePassRaised(lineMap, pathOf, rows, i + 1);
    }
  }

  lemma LineStepSplit(pairs: seq<(int, int)>, events: seq<Event>, lineMap: map<Lines.Parts, map<int, int>>,
                      pathOf: string -> Lines.Parts, e: Entity)
    requires e.orig.Some?
    ensures var t := LineStep(LineState(pairs, [], false), lineMap, pathOf, e);
      LineStep(LineState(pairs, events, false), lineMap, pathOf, e) == LineState(t.pairs, events + t.events, t.raised)
  {}

  /** One row of match_lines. */
  method StageLine(batch: EntityBatch, lineMap: map<Lines.Parts, map<int, int>>, pathOf: string -> Lines.Parts,
                   ghost pairs: seq<(int, int)>, e: Entity) returns (events: seq<Event>, raised: bool)
    requires e.orig.Some?
    requires batch.Valid() && batch.recompAddr == PutAll(pairs)
    modifies batch`recompAddr
    ensures batch.Valid()
    ensures var st := LineStep(LineState(pairs, [], false), lineMap, pathOf, e);
      && batch.recompAddr == PutAll(st.pairs) && events == st.events && raised == st.raised
  {
    events, raised := [], false;
    if OfType(e.kv, LINE) {
      var found := LineLookup(lineMap, pathOf, e.kv);
      if found.Err? {
        raised := true;
      } else if found.value.None? {
        events := [Event(NoMatch, e.orig.value)];
      } else {
        assert (pairs + [(e.orig.value, found.value.value)])[..|pairs|] == pairs;
        batch.SetRecompAddr(e.orig.value, found.value.value);
      }
    }
  }

  /**
   * match_lines: give each orig-only LINE row the recomp address of the one
   * function starting on the line below it, and report those without one.
   * `ok` is false when the `with` block raised: a TypeError in the loop
   * (nothing is committed) or an IntegrityError in the commit.
   */
  method MatchLines(db: EntityDb, lines: Lines.LinesDb, pathOf: string -> Lines.Parts) returns (events: seq<Event>, ok: bool)
    requires db.Valid()
    modifies db`table, db`types, db`labels
    ensures db.Valid()
    ensures events == LinePass(lines.lineMap, pathOf, OrigUnmatched(old(db.table))).events
    ensures LinePass(lines.lineMap, pathOf, OrigUnmatched(old(db.table))).raised ==> !ok
    ensures !LinePass(lines.lineMap, pathOf, OrigUnmatched(old(db.table))).raised ==>
      (ok <==> SetRecompAddrAll(old(db.table), LinePass(lines.lineMap, pathOf, OrigUnmatched(old(db.table))).pairs).Ok?)
    ensures ok ==> db.table == SetRecompAddrAll(old(db.table), LinePass(lines.lineMap, pathOf, OrigUnmatched(old(db.table))).pairs).value
    ensures !ok ==> db.table == old(db.table)
    ensures db.types == old(db.types) && db.labels == old(db.labels)
  {
    var rows := OrigUnmatched(db.table);
    events, ok := MatchLineRows(db, lines.lineMap, pathOf, rows);
  }

  /** The `with` block of match_lines over the given unmatched rows. */
  method MatchLineRows(db: EntityDb, lineMap: map<Lines.Parts, map<int, int>>, pathOf: string -> Lines.Parts,
                       rows: seq<Entity>) returns (events: seq<Event>, ok: bool)
    requires db.Valid() && AscendingOrig(rows)
    requires forall i :: 0 <= i < |rows| ==> rows[i].orig.Some?
    modifies db`table, db`types, db`labels
    ensures db.Valid()
    ensures events == LinePass(lineMap, pathOf, rows).events
    ensures LinePass(lineMap, pathOf, rows).raised ==> !ok
    ensures !LinePass(lineMap, pathOf, rows).raised ==>
      (ok <==> SetRecompAddrAll(old(db.table), LinePass(lineMap, pathOf, rows).pairs).Ok?)
    ensures ok ==> db.table == SetRecompAddrAll(old(db.table), LinePass(lineMap, pathOf, rows).pairs).value
    ensures !ok ==> db.table == old(db.table)
    ensures db.types == old(db.types) && db.labels == old(db.labels)
  {
    var batch := new EntityBatch(db);
    var raised;
    events, raised := StageLines(batch, lineMap, pathOf, rows);
    if raised {
      ok := batch.Exit(true);
      ok := false;
      return;
    }
    LinePassAscending(lineMap, pathOf, rows);
    PutAllFresh(LinePass(lineMap, pathOf, rows).pairs);
    ok := CommitStagedAddrs(db, batch);
  }

  /** Leaving a `with` block that staged only recomp addresses: all of them are set, or none. */
  method CommitStagedAddrs(db: EntityDb, batch: EntityBatch) returns (ok: bool)
    requires batch.base == db && batch.Valid()
    requires batch.origInsert == [] && batch.recompInsert == [] && batch.origSet == [] && batch.recompSet == []
    requires batch.types == map[] && batch.labels == map[] && batch.origToRecomp == []
    modifies batch, db`table, db`types, db`labels
    ensures db.Valid()
    ensures ok <==> SetRecompAddrAll(old(db.table), old(batch.recompAddr)).Ok?
    ensures ok ==> db.table == SetRecompAddrAll(old(db.table), old(batch.recompAddr)).value
    ensures !ok ==> db.table == old(db.table)
    ensures db.types == old(db.types) && db.labels == old(db.labels)
  {
    CommitOnlyAddrs(db.table, batch.recompAddr);
    NothingElseStaged(db.types, db.labels);
    ok := batch.Exit(false);
  }

  /** With no type and no label staged, commit leaves both tables as they were. */
  lemma NothingElseStaged(types0: map<(int, int), EntityType>, labels0: map<(int, int), Value>)
    ensures types0 + map[] == types0 && LabelsAfter(labels0, map[], map[]) == labels0
  {
  }

  /** A batch holding only recomp addresses commits exactly those, or leaves the table as it was. */
  lemma CommitOnlyAddrs(t: Table, ra: Dict<int, int>)
    requires WellFormed(t)
    ensures CommitTable(t, [], [], [], [], [], ra).1 <==> SetRecompAddrAll(t, ra).Ok?
    ensures CommitTable(t, [], [], [], [], [], ra).0 == if SetRecompAddrAll(t, ra).Ok? then SetRecompAddrAll(t, ra).value else t
  {
    assert InsertRecompAll(InsertOrigAll(InsertRecompAll(InsertOrigAll(t, [], false), [], false), [], true), [], true) == t;
    assert MatchAll(t, []) == t;
  }
}
