/**
 * Relocation patching of an NE image (`NEImage.__post_init__`): imported
 * ordinals get addresses in an invented import segment at 0x2000 << 16,
 * internal references are resolved (movable ones through the entry
 * table), and every site of every relocation chain is overwritten in the
 * segment's bytes, segment by segment, in the order the source builds its
 * patch list.
 */
module NeReloc {
  import opened Wrappers
  import opened Bytes
  import opened Ne

  // ---- the stable sort by (value0, value1) ----

  type Key = (nat, nat)

  function KeyOf(r: Relocation): Key { (r.value0, r.value1) }

  predicate KeyLe(a: Key, b: Key) { a.0 < b.0 || (a.0 == b.0 && a.1 <= b.1) }

  ghost predicate SortedByKey(s: seq<Relocation>)
  {
    forall i, j :: 0 <= i < j < |s| ==> KeyLe(KeyOf(s[i]), KeyOf(s[j]))
  }

  /** `x` placed after every element whose key is not greater than its own. */
  function Insert(x: Relocation, s: seq<Relocation>): (r: seq<Relocation>)
    ensures |r| == |s| + 1
    decreases |s|
  {
    if s == [] || KeyLe(KeyOf(s[|s| - 1]), KeyOf(x)) then s + [x]
    else Insert(x, s[..|s| - 1]) + [s[|s| - 1]]
  }

  /** `sorted(rs, key=lambda v: (v.value0, v.value1))`, by insertion from the left. */
  function SortByKey(rs: seq<Relocation>): (r: seq<Relocation>)
    ensures |r| == |rs|
  {
    if rs == [] then [] else Insert(rs[|rs| - 1], SortByKey(rs[..|rs| - 1]))
  }

  lemma {:induction false} InsertPermutes(x: Relocation, s: seq<Relocation>)
    ensures multiset(Insert(x, s)) == multiset(s) + multiset{x}
    decreases |s|
  {
    if !(s == [] || KeyLe(KeyOf(s[|s| - 1]), KeyOf(x))) {
      InsertPermutes(x, s[..|s| - 1]);
      assert s == s[..|s| - 1] + [s[|s| - 1]];
    }
  }

  lemma {:induction false} InsertSorted(x: Relocation, s: seq<Relocation>)
    requires SortedByKey(s)
    ensures SortedByKey(Insert(x, s))
    decreases |s|
  {
    if s == [] || KeyLe(KeyOf(s[|s| - 1]), KeyOf(x)) {
      var r := s + [x];
      forall i, j | 0 <= i < j < |r| ensures KeyLe(KeyOf(r[i]), KeyOf(r[j])) {
        if j == |s| && i < |s| - 1 {
          assert KeyLe(KeyOf(s[i]), KeyOf(s[|s| - 1]));
        }
      }
    } else {
      var p, y := s[..|s| - 1], s[|s| - 1];
      InsertSorted(x, p);
      InsertPermutes(x, p);
      var q := Insert(x, p);
      forall i | 0 <= i < |q| ensures KeyLe(KeyOf(q[i]), KeyOf(y)) {
        assert q[i] in multiset(q);
        if q[i] != x {
          assert q[i] in multiset(p);
          var k :| 0 <= k < |p| && p[k] == q[i];
          assert s[k] == p[k];
        }
      }
      var r := q + [y];
      forall i, j | 0 <= i < j < |r| ensures KeyLe(KeyOf(r[i]), KeyOf(r[j])) {
        if j < |q| {
          assert r[i] == q[i] && r[j] == q[j];
        }
      }
    }
  }

  /** The sort returns the relocations it was given, ordered by key. */
  lemma {:induction false} SortByKeySorted(rs: seq<Relocation>)
    ensures SortedByKey(SortByKey(rs))
    ensures multiset(SortByKey(rs)) == multiset(rs)
  {
    if rs != [] {
      var p := rs[..|rs| - 1];
      SortByKeySorted(p);
      InsertSorted(rs[|rs| - 1], SortByKey(p));
      InsertPermutes(rs[|rs| - 1], SortByKey(p));
      assert rs == p + [rs[|rs| - 1]];
    }
  }

  /** The relocations of `s` with key `k`, in order. */
  function WithKey(s: seq<Relocation>, k: Key): seq<Relocation>
  {
    if s == [] then []
    else WithKey(s[..|s| - 1], k) + (if KeyOf(s[|s| - 1]) == k then [s[|s| - 1]] else [])
  }

  lemma {:induction false} InsertStable(x: Relocation, s: seq<Relocation>, k: Key)
    requires SortedByKey(s)
    ensures WithKey(Insert(x, s), k) == WithKey(s, k) + (if KeyOf(x) == k then [x] else [])
    decreases |s|
  {
    if s == [] || KeyLe(KeyOf(s[|s| - 1]), KeyOf(x)) {
      assert (s + [x])[..|s|] == s;
    } else {
      var p, y := s[..|s| - 1], s[|s| - 1];
      InsertStable(x, p, k);
      var q := Insert(x, p);
      assert (q + [y])[..|q|] == q;
      assert KeyOf(x) != KeyOf(y);
    }
  }

  /** The sort is stable: relocations with equal keys keep their order. */
  lemma {:induction false} SortByKeyStable(rs: seq<Relocation>, k: Key)
    ensures WithKey(SortByKey(rs), k) == WithKey(rs, k)
  {
    if rs != [] {
      var p := rs[..|rs| - 1];
      SortByKeyStable(p, k);
      SortByKeySorted(p);
      InsertStable(rs[|rs| - 1], SortByKey(p), k);
    }
  }

  // ---- imports ----

  /** The relocations of `rs` with flag `f`, in order. */
  function FlagFilter(rs: seq<Relocation>, f: RelocFlag): (r: seq<Relocation>)
    ensures forall x :: x in r <==> x in rs && x.flag == f
  {
    if rs == [] then []
    else FlagFilter(rs[..|rs| - 1], f) + (if rs[|rs| - 1].flag == f then [rs[|rs| - 1]] else [])
  }

  /** `all_imports` before sorting: the IMPORTORDINAL relocations of every segment, in segment order. */
  function ImportOrdinals(segs: seq<NESegment>): (r: seq<Relocation>)
    ensures forall x :: x in r <==> x.flag == ImportOrdinal && exists s :: 0 <= s < |segs| && x in segs[s].relocs
  {
    if segs == [] then []
    else ImportOrdinals(segs[..|segs| - 1]) + FlagFilter(segs[|segs| - 1].relocs, ImportOrdinal)
  }

  /** The invented import segment's first address. */
  const ImportBase: int := 0x2000 * 0x1_0000

  /** `import_map`'s addresses: import i of the sorted list at `ImportBase + 4 * i`, the last of equal keys winning. */
  function ImportAddrs(all: seq<Relocation>): (m: map<Key, int>)
    ensures forall x :: x in all ==> KeyOf(x) in m
    ensures forall k :: k in m ==> exists x :: x in all && KeyOf(x) == k
  {
    if all == [] then map[]
    else ImportAddrs(all[..|all| - 1])[KeyOf(all[|all| - 1]) := ImportBase + 4 * (|all| - 1)]
  }

  /** The address of a key is that of the last import carrying it. */
  lemma {:induction false} ImportAddrIsLast(all: seq<Relocation>, k: Key) returns (i: nat)
    requires k in ImportAddrs(all)
    ensures i < |all| && KeyOf(all[i]) == k && ImportAddrs(all)[k] == ImportBase + 4 * i
    ensures forall j :: i < j < |all| ==> KeyOf(all[j]) != k
  {
    var n := |all| - 1;
    if KeyOf(all[n]) == k {
      i := n;
    } else {
      var p := all[..n];
      i := ImportAddrIsLast(p, k);
      assert all[i] == p[i];
      forall j | i < j < |all| ensures KeyOf(all[j]) != k {
        if j < n {
          assert all[j] == p[j];
        }
      }
    }
  }

  /** Distinct imports get distinct, 4-aligned addresses inside the import segment. */
  lemma ImportAddrsDistinct(all: seq<Relocation>, k1: Key, k2: Key)
    requires k1 in ImportAddrs(all) && k2 in ImportAddrs(all) && k1 != k2
    ensures ImportAddrs(all)[k1] != ImportAddrs(all)[k2]
    ensures ImportBase <= ImportAddrs(all)[k1] < ImportBase + 4 * |all|
  {
    var i1 := ImportAddrIsLast(all, k1);
    var i2 := ImportAddrIsLast(all, k2);
  }

  /** The keys in the order `import_map` first sees them: the order of `_imports`. */
  function KeyOrder(all: seq<Relocation>): (ks: seq<Key>)
    ensures forall a, b :: 0 <= a < b < |ks| ==> ks[a] != ks[b]
    ensures forall k :: k in ks <==> k in ImportAddrs(all)
  {
    if all == [] then []
    else
      var ks := KeyOrder(all[..|all| - 1]);
      var k := KeyOf(all[|all| - 1]);
      if k in ks then ks else ks + [k]
  }

  ghost predicate KeysSorted(ks: seq<Key>)
  {
    forall a, b :: 0 <= a < b < |ks| ==> KeyLe(ks[a], ks[b])
  }

  /** Over the sorted imports, the keys come out sorted. */
  lemma {:induction false} KeyOrderSorted(all: seq<Relocation>)
    requires SortedByKey(all)
    ensures KeysSorted(KeyOrder(all))
  {
    if all != [] {
      var p := all[..|all| - 1];
      var y := all[|all| - 1];
      KeyOrderSorted(p);
      var ks := KeyOrder(p);
      forall a | 0 <= a < |ks| ensures KeyLe(ks[a], KeyOf(y)) {
        var i := ImportAddrIsLast(p, ks[a]);
        assert all[i] == p[i];
      }
      var ks' := KeyOrder(all);
      forall a, b | 0 <= a < b < |ks'| ensures KeyLe(ks'[a], ks'[b]) {
        if b < |ks| {
          assert ks'[a] == ks[a] && ks'[b] == ks[b];
          assert KeyLe(ks[a], ks[b]);
        } else {
          assert ks'[a] == ks[a] && ks'[b] == KeyOf(y);
        }
      }
    }
  }

  datatype ImageImport = ImageImport(moduleName: string, ordinal: nat, addr: int)

  /** `tuple(import_map.values())`; the module name lookup raises IndexError for an unknown module. */
  function Imports(all: seq<Relocation>, names: seq<string>): (r: Result<seq<ImageImport>>)
    ensures r.Err? <==> exists i :: 0 <= i < |all| && all[i].value0 >= |names|
    ensures r.Err? ==> r.error == IndexError
    ensures r.Ok? ==> |r.value| == |KeyOrder(all)|
  {
    if exists i :: 0 <= i < |all| && all[i].value0 >= |names| then Err(IndexError)
    else
      var ks := KeyOrder(all);
      var m := ImportAddrs(all);
      Ok(seq(|ks|, j requires 0 <= j < |ks| =>
        assert ks[j] in m;
        ImageImport(names[ks[j].0], ks[j].1, m[ks[j]])))
  }

  /**
   * Every imported ordinal has exactly one import, named after its module,
   * with its ordinal and its address in the map.
   */
  lemma ImportOfRelocation(all: seq<Relocation>, names: seq<string>, i: nat)
    requires Imports(all, names).Ok? && i < |all|
    ensures var imps := Imports(all, names).value;
      exists j :: 0 <= j < |imps| && imps[j] == ImageImport(names[all[i].value0], all[i].value1, ImportAddrs(all)[KeyOf(all[i])])
  {
    var ks := KeyOrder(all);
    assert KeyOf(all[i]) in ks;
    var j :| 0 <= j < |ks| && ks[j] == KeyOf(all[i]);
    var imps := Imports(all, names).value;
    assert imps[j].moduleName == names[ks[j].0];
  }

  /** Distinct imports have distinct addresses. */
  lemma ImportsDistinct(all: seq<Relocation>, names: seq<string>, a: nat, b: nat)
    requires Imports(all, names).Ok?
    requires a < b < |Imports(all, names).value|
    ensures Imports(all, names).value[a].addr != Imports(all, names).value[b].addr
  {
    var ks := KeyOrder(all);
    assert ks[a] in ImportAddrs(all) && ks[b] in ImportAddrs(all);
    ImportAddrsDistinct(all, ks[a], ks[b]);
  }

  /** The module names of the module reference table, from index `k` on. */
  function ModuleNamesFrom(modulesRaw: byteseq, namesRaw: byteseq, k: nat): (r: Result<seq<string>>)
    requires 2 * k <= |modulesRaw|
    ensures r.Ok? ==> |r.value| == (|modulesRaw| - 2 * k) / 2
    ensures r.Err? ==> r.error == IndexError || r.error == DecodeError
    decreases |modulesRaw| - 2 * k
  {
    if 2 * k + 2 > |modulesRaw| then Ok([])
    else
      match PascalString(Slice(namesRaw, U16(modulesRaw, 2 * k), |namesRaw|))
      case Err(e) => Err(e)
      case Ok(name) =>
        match ModuleNamesFrom(modulesRaw, namesRaw, k + 1)
        case Err(e) => Err(e)
        case Ok(rest) => Ok([name] + rest)
  }

  /**
   * `imported_names`: a blank, since module references are 1-based, then
   * the Pascal string at each u16 offset of the module reference table
   * into the imported-names table.
   */
  function ImportedNames(modulesRaw: byteseq, namesRaw: byteseq): (r: Result<seq<string>>)
    ensures |modulesRaw| % 2 != 0 <==> r == Err(StructError)
    ensures r.Ok? ==> 2 * (|r.value| - 1) == |modulesRaw| && r.value[0] == ""
  {
    if |modulesRaw| % 2 != 0 then Err(StructError)
    else
      match ModuleNamesFrom(modulesRaw, namesRaw, 0)
      case Err(e) => Err(e)
      case Ok(ns) => Ok([""] + ns)
  }

  // ---- the entry map ----

  ghost predicate Increasing(es: seq<NEEntry>)
  {
    forall i, j :: 0 <= i < j < |es| ==> es[i].ordinal < es[j].ordinal
  }

  /** `{entry.ordinal: entry for entry in entry_table}`. */
  function EntryMap(es: seq<NEEntry>): (m: map<nat, NEEntry>)
    ensures forall i :: 0 <= i < |es| ==> es[i].ordinal in m
    ensures forall o :: o in m ==> exists i :: 0 <= i < |es| && es[i].ordinal == o
  {
    if es == [] then map[]
    else
      var m := EntryMap(es[..|es| - 1]);
      assert forall i :: 0 <= i < |es| - 1 ==> es[i] == es[..|es| - 1][i];
      m[es[|es| - 1].ordinal := es[|es| - 1]]
  }

  /** With strictly increasing ordinals, each ordinal maps to its own entry. */
  lemma {:induction false} EntryMapLookup(es: seq<NEEntry>, i: nat)
    requires Increasing(es) && i < |es|
    ensures EntryMap(es)[es[i].ordinal] == es[i]
  {
    var n := |es| - 1;
    if i < n {
      var p := es[..n];
      assert p[i] == es[i];
      EntryMapLookup(p, i);
    }
  }

  // ---- the patch list of a segment ----

  datatype Patch = Patch(offset: nat, bytes: byteseq)

  /** `struct.pack("<H", v)`, which raises for a value outside 0..0xFFFF. */
  function Pack16(v: int): (r: Result<byteseq>)
    ensures r.Ok? <==> 0 <= v < 0x1_0000
    ensures r.Ok? ==> |r.value| == 2 && U16(r.value, 0) == v
    ensures r.Err? ==> r.error == StructError
  {
    if 0 <= v < 0x1_0000 then Ok(PackU16(v)) else Err(StructError)
  }

  /** `struct.pack("<I", v)`, which raises for a value outside 32 bits. */
  function Pack32(v: int): (r: Result<byteseq>)
    ensures r.Ok? <==> 0 <= v < 0x1_0000_0000
    ensures r.Ok? ==> |r.value| == 4 && U32(r.value, 0) == v
    ensures r.Err? ==> r.error == StructError
  {
    if 0 <= v < 0x1_0000_0000 then Ok(PackU32(v)) else Err(StructError)
  }

  /** The same bytes at each of `offs`. */
  function Spread(offs: seq<nat>, b: byteseq): (ps: seq<Patch>)
    ensures |ps| == |offs| && forall i :: 0 <= i < |ps| ==> ps[i] == Patch(offs[i], b)
  {
    seq(|offs|, i requires 0 <= i < |offs| => Patch(offs[i], b))
  }

  /** The import patches of a segment: the 4-byte address of the import at every site of every IMPORTORDINAL relocation. */
  function ImportPatches(relocs: seq<Relocation>, addrs: map<Key, int>): (r: Result<seq<Patch>>)
    ensures r.Ok? ==> forall i :: 0 <= i < |r.value| ==> |r.value[i].bytes| == 4
    ensures r.Err? ==> r.error == KeyError || r.error == StructError
    ensures (forall x :: x in relocs && x.flag == ImportOrdinal ==> KeyOf(x) in addrs) ==> r != Err(KeyError)
  {
    if relocs == [] then Ok([])
    else
      var x := relocs[|relocs| - 1];
      assert forall y :: y in relocs[..|relocs| - 1] ==> y in relocs;
      match ImportPatches(relocs[..|relocs| - 1], addrs)
      case Err(e) => Err(e)
      case Ok(ps) =>
        if x.flag != ImportOrdinal then Ok(ps)
        else if KeyOf(x) !in addrs then Err(KeyError)
        else
          match Pack32(addrs[KeyOf(x)])
          case Err(e) => Err(e)
          case Ok(b) => Ok(ps + Spread(x.offsets, b))
  }

  /** The import lookup of a segment's patches never misses: every imported ordinal is in the map. */
  lemma ImportPatchesFound(segs: seq<NESegment>, s: nat)
    requires s < |segs|
    ensures ImportPatches(segs[s].relocs, ImportAddrs(SortByKey(ImportOrdinals(segs)))) != Err(KeyError)
  {
    var all := ImportOrdinals(segs);
    SortByKeySorted(all);
    forall x | x in segs[s].relocs && x.flag == ImportOrdinal
      ensures KeyOf(x) in ImportAddrs(SortByKey(all))
    {
      assert x in all;
      assert x in multiset(SortByKey(all));
    }
  }

  /** `(replacement_seg, replacement_ofs)`: a movable reference (value0 255) goes through the entry table. */
  function Resolve(x: Relocation, entries: map<nat, NEEntry>): (r: Result<(int, int)>)
    ensures r.Err? <==> x.value0 == 255 && x.value1 !in entries
    ensures r.Err? ==> r.error == ValueError
    ensures r.Ok? && x.value0 == 255 ==> r.value == (entries[x.value1].segment, entries[x.value1].offset)
    ensures x.value0 != 255 ==> r == Ok((x.value0, x.value1))
  {
    if x.value0 != 255 then Ok((x.value0, x.value1))
    else if x.value1 !in entries then Err(ValueError)
    else Ok((entries[x.value1].segment, entries[x.value1].offset))
  }

  /**
   * `replacement` for an internal reference: the offset as 2 bytes, the
   * segment's selector as 2 bytes, the flat address as 4 bytes, or for a
   * LOBYTE relocation whatever the previous one computed.
   */
  function Replacement(x: Relocation, target: (int, int), segs: seq<NESegment>, last: Option<byteseq>): (r: Result<byteseq>)
    ensures r.Ok? && x.rtype == OffsetRef ==> |r.value| == 2 && U16(r.value, 0) == target.1
    ensures r.Ok? && x.rtype == SegmentRef ==> |r.value| == 2 && U16(r.value, 0) == IndexToSeg(target.0)
    ensures r.Ok? && x.rtype == FarAddr ==> |r.value| == 4 && GetAbsAddrAsWritten(segs, target.0, target.1) == Ok(U32(r.value, 0))
    ensures x.rtype == LoByte ==> r == if last.Some? then Ok(last.value) else Err(UnboundLocal)
    ensures x.rtype == OffsetRef ==> (r.Ok? <==> 0 <= target.1 < 0x1_0000)
  {
    match x.rtype
    case OffsetRef => Pack16(target.1)
    case SegmentRef => Pack16(IndexToSeg(target.0))
    case FarAddr =>
      (match GetAbsAddrAsWritten(segs, target.0, target.1)
       case Err(e) => Err(e)
       case Ok(a) => Pack32(a))
    case LoByte => if last.Some? then Ok(last.value) else Err(UnboundLocal)
  }

  predicate PatchWidth(b: byteseq) { |b| == 2 || |b| == 4 }

  /**
   * The internal-reference patches of a segment, `last` the replacement
   * left by the relocations before: the patches and the replacement left
   * afterwards. A movable reference missing from the entry table fails.
   */
  function InternalPatches(rs: seq<Relocation>, entries: map<nat, NEEntry>, segs: seq<NESegment>, last: Option<byteseq>)
    : (r: Result<(seq<Patch>, Option<byteseq>)>)
    ensures r.Ok? && (last.Some? ==> PatchWidth(last.value)) ==>
      (forall i :: 0 <= i < |r.value.0| ==> PatchWidth(r.value.0[i].bytes))
      && (r.value.1.Some? ==> PatchWidth(r.value.1.value))
    ensures r.Ok? && rs != [] ==> r.value.1.Some?
    ensures (exists i :: 0 <= i < |rs| && rs[i].value0 == 255 && rs[i].value1 !in entries) ==> r.Err?
    decreases |rs|
  {
    if rs == [] then Ok(([], last))
    else
      var x := rs[0];
      match Resolve(x, entries)
      case Err(e) => Err(e)
      case Ok(target) =>
        match Replacement(x, target, segs, last)
        case Err(e) => Err(e)
        case Ok(b) =>
          assert forall i :: 1 <= i < |rs| ==> rs[i] == rs[1..][i - 1];
          match InternalPatches(rs[1..], entries, segs, Some(b))
          case Err(e) => Err(e)
          case Ok((ps, after)) => Ok((Spread(x.offsets, b) + ps, after))
  }

  /**
   * A LOBYTE relocation writes whatever replacement the relocation before it
   * computed, even one from an earlier segment; with none before it the
   * source fails on an unbound local.
   */
  lemma LoByteReuses(x: Relocation, rest: seq<Relocation>, entries: map<nat, NEEntry>, segs: seq<NESegment>, last: Option<byteseq>)
    requires x.rtype == LoByte && x.value0 != 255
    ensures last.None? ==> InternalPatches([x] + rest, entries, segs, last) == Err(UnboundLocal)
    ensures last.Some? && InternalPatches([x] + rest, entries, segs, last).Ok? ==>
      var ps := InternalPatches([x] + rest, entries, segs, last).value.0;
      forall i :: 0 <= i < |x.offsets| ==> ps[i] == Patch(x.offsets[i], last.value)
  {
    assert ([x] + rest)[0] == x && ([x] + rest)[1..] == rest;
  }

  /** `reloc_values` of one segment: its import patches, then its INTERNALREF relocations sorted by key. */
  function SegmentPatches(seg: NESegment, addrs: map<Key, int>, entries: map<nat, NEEntry>, segs: seq<NESegment>, last: Option<byteseq>)
    : (r: Result<(seq<Patch>, Option<byteseq>)>)
    ensures r.Ok? && (last.Some? ==> PatchWidth(last.value)) ==>
      (forall i :: 0 <= i < |r.value.0| ==> PatchWidth(r.value.0[i].bytes))
      && (r.value.1.Some? ==> PatchWidth(r.value.1.value))
  {
    match ImportPatches(seg.relocs, addrs)
    case Err(e) => Err(e)
    case Ok(imports) =>
      match InternalPatches(SortByKey(FlagFilter(seg.relocs, InternalRef)), entries, segs, last)
      case Err(e) => Err(e)
      case Ok((internals, after)) => Ok((imports + internals, after))
  }

  /** A movable reference of a segment that the entry table lacks makes the segment's patch list fail. */
  lemma MissingEntryFails(seg: NESegment, addrs: map<Key, int>, entries: map<nat, NEEntry>, segs: seq<NESegment>,
                          last: Option<byteseq>, x: Relocation)
    requires x in seg.relocs && x.flag == InternalRef && x.value0 == 255 && x.value1 !in entries
    ensures SegmentPatches(seg, addrs, entries, segs, last).Err?
  {
    var rs := FlagFilter(seg.relocs, InternalRef);
    SortByKeySorted(rs);
    assert x in multiset(SortByKey(rs));
    var i :| 0 <= i < |SortByKey(rs)| && SortByKey(rs)[i] == x;
  }

  // ---- applying the patches ----

  /** `data` with `b` written from `at` on, where it fits. */
  function Overwrite(data: byteseq, at: nat, b: byteseq): (r: byteseq)
    ensures |r| == |data|
    ensures forall i :: 0 <= i < |r| ==> r[i] == if at <= i < at + |b| then b[i - at] else data[i]
  {
    var r := seq(|data|, i requires 0 <= i < |data| => if at <= i < at + |b| then b[i - at] else data[i]);
    assert IsBytes(r);
    r
  }

  lemma OverwriteNothing(data: byteseq, at: nat, b: byteseq)
    requires b == []
    ensures Overwrite(data, at, b) == data
  {}

  /**
   * `seg_data[offset : offset + len(patch)] = patch`, `seg_data` the
   * memoryview of the segment's `size` bytes at `lo`: a patch that does not
   * fit in the segment's bytes changes the view's shape and raises.
   */
  function ApplyPatch(data: byteseq, lo: nat, size: nat, p: Patch): (r: Result<byteseq>)
    ensures r.Err? <==> |p.bytes| > 0 && p.offset + |p.bytes| > |Slice(data, lo, lo + size)|
    ensures r.Err? ==> r.error == ValueError
    ensures r.Ok? ==> |r.value| == |data|
  {
    if |p.bytes| > 0 && p.offset + |p.bytes| > |Slice(data, lo, lo + size)| then Err(ValueError)
    else Ok(Overwrite(data, lo + p.offset, p.bytes))
  }

  /**
   * A patch that is applied lies inside the segment's bytes, lands byte for
   * byte at the segment's start plus its offset, and leaves every other
   * byte as it was.
   */
  lemma PatchLands(data: byteseq, lo: nat, size: nat, p: Patch)
    requires ApplyPatch(data, lo, size, p).Ok?
    ensures var d := ApplyPatch(data, lo, size, p).value;
      && (|p.bytes| > 0 ==> p.offset + |p.bytes| <= size && lo + p.offset + |p.bytes| <= |data|)
      && (forall i :: 0 <= i < |p.bytes| ==> d[lo + p.offset + i] == p.bytes[i])
      && (forall i :: 0 <= i < |data| && !(lo + p.offset <= i < lo + p.offset + |p.bytes|) ==> d[i] == data[i])
  {}

  /** The patches from index `k` on, applied in order; the first that does not fit fails the lot. */
  function ApplyFrom(data: byteseq, lo: nat, size: nat, ps: seq<Patch>, k: nat): (r: Result<byteseq>)
    requires k <= |ps|
    ensures r.Ok? ==> |r.value| == |data|
    ensures r.Err? ==> r.error == ValueError
    decreases |ps| - k
  {
    if k == |ps| then Ok(data)
    else
      match ApplyPatch(data, lo, size, ps[k])
      case Err(e) => Err(e)
      case Ok(d) => ApplyFrom(d, lo, size, ps, k + 1)
  }

  /** Applying a segment's patches leaves every byte outside the segment as it was. */
  lemma {:induction false} ApplyFromOutside(data: byteseq, lo: nat, size: nat, ps: seq<Patch>, k: nat, i: nat)
    requires k <= |ps| && ApplyFrom(data, lo, size, ps, k).Ok? && i < |data| && !(lo <= i < lo + size)
    ensures ApplyFrom(data, lo, size, ps, k).value[i] == data[i]
    decreases |ps| - k
  {
    if k < |ps| {
      PatchLands(data, lo, size, ps[k]);
      ApplyFromOutside(ApplyPatch(data, lo, size, ps[k]).value, lo, size, ps, k + 1, i);
    }
  }

  lemma ApplyStep(data: byteseq, lo: nat, size: nat, ps: seq<Patch>, k: nat)
    requires k < |ps|
    ensures ApplyPatch(data, lo, size, ps[k]).Err? ==> ApplyFrom(data, lo, size, ps, k) == Err(ValueError)
    ensures ApplyPatch(data, lo, size, ps[k]).Ok? ==>
      ApplyFrom(data, lo, size, ps, k) == ApplyFrom(ApplyPatch(data, lo, size, ps[k]).value, lo, size, ps, k + 1)
  {}

  /** The patching of every segment from `s` on, `last` the replacement carried over from the segments before. */
  function RelocateFrom(data: byteseq, segs: seq<NESegment>, addrs: map<Key, int>, entries: map<nat, NEEntry>,
                        last: Option<byteseq>, s: nat): (r: Result<byteseq>)
    requires s <= |segs|
    ensures r.Ok? ==> |r.value| == |data|
    decreases |segs| - s
  {
    if s == |segs| then Ok(data)
    else
      match SegmentPatches(segs[s], addrs, entries, segs, last)
      case Err(e) => Err(e)
      case Ok((ps, after)) =>
        match ApplyFrom(data, segs[s].physOffset, segs[s].physSize, ps, 0)
        case Err(e) => Err(e)
        case Ok(d) => RelocateFrom(d, segs, addrs, entries, after, s + 1)
  }

  /** What patching needs: the import addresses, the entry table by ordinal, and the imports. */
  datatype Plan = Plan(addrs: map<Key, int>, entries: map<nat, NEEntry>, imports: seq<ImageImport>)

  /** The module names and the import map, once the entry table `es` is read. */
  function PlanFrom(es: seq<NEEntry>, data: byteseq, lfanew: nat, h: NeHeader, segs: seq<NESegment>): (r: Result<Plan>)
    ensures r.Ok? ==> r.value.entries == EntryMap(es)
  {
    var modulesRaw := Slice(data, lfanew + h.modtab, lfanew + h.imptab);
    var namesRaw := Slice(data, lfanew + h.imptab, lfanew + h.enttab);
    match ImportedNames(modulesRaw, namesRaw)
    case Err(e) => Err(e)
    case Ok(names) =>
      var all := SortByKey(ImportOrdinals(segs));
      match Imports(all, names)
      case Err(e) => Err(e)
      case Ok(imps) => Ok(Plan(ImportAddrs(all), EntryMap(es), imps))
  }

  /**
   * What `__post_init__` does to the image: the entry table, the imported
   * module names and the import map first, then every segment patched.
   * The result is the patched bytes and the imports.
   */
  function PostInitSpec(data: byteseq, lfanew: nat, h: NeHeader, segs: seq<NESegment>): (r: Result<(byteseq, seq<ImageImport>)>)
    ensures r.Ok? ==> |r.value.0| == |data|
  {
    match Bundles(data, lfanew + h.enttab, 0)
    case Err(e) => Err(e)
    case Ok(es) =>
      match PlanFrom(es, data, lfanew, h, segs)
      case Err(e) => Err(e)
      case Ok(plan) =>
        match RelocateFrom(data, segs, plan.addrs, plan.entries, None, 0)
        case Err(e) => Err(e)
        case Ok(d) => Ok((d, plan.imports))
  }

  /** One segment of a successful relocation: its patches, applied, then the later segments. */
  lemma RelocateUnfold(data: byteseq, segs: seq<NESegment>, addrs: map<Key, int>, entries: map<nat, NEEntry>,
                       last: Option<byteseq>, s: nat) returns (ps: seq<Patch>, after: Option<byteseq>, d: byteseq)
    requires s < |segs| && RelocateFrom(data, segs, addrs, entries, last, s).Ok?
    ensures SegmentPatches(segs[s], addrs, entries, segs, last) == Ok((ps, after))
    ensures ApplyFrom(data, segs[s].physOffset, segs[s].physSize, ps, 0) == Ok(d) && |d| == |data|
    ensures RelocateFrom(d, segs, addrs, entries, after, s + 1).Ok?
    ensures RelocateFrom(data, segs, addrs, entries, last, s) == RelocateFrom(d, segs, addrs, entries, after, s + 1)
  {
    ps, after := SegmentPatches(segs[s], addrs, entries, segs, last).value.0, SegmentPatches(segs[s], addrs, entries, segs, last).value.1;
    d := ApplyFrom(data, segs[s].physOffset, segs[s].physSize, ps, 0).value;
  }

  /** Patching never touches bytes outside every segment's physical extent. */
  lemma {:induction false} RelocateOutside(data: byteseq, segs: seq<NESegment>, addrs: map<Key, int>, entries: map<nat, NEEntry>,
                                           last: Option<byteseq>, s: nat, i: nat)
    requires s <= |segs| && i < |data| && RelocateFrom(data, segs, addrs, entries, last, s).Ok?
    requires forall t :: s <= t < |segs| ==> !(segs[t].physOffset <= i < segs[t].physOffset + segs[t].physSize)
    ensures RelocateFrom(data, segs, addrs, entries, last, s).value[i] == data[i]
    decreases |segs| - s
  {
    if s < |segs| {
      var ps, after, d := RelocateUnfold(data, segs, addrs, entries, last, s);
      ApplyFromOutside(data, segs[s].physOffset, segs[s].physSize, ps, 0, i);
      RelocateOutside(d, segs, addrs, entries, after, s + 1, i);
    }
  }

  /** The NE image whose buffer `__post_init__` patches in place. */
  class NeImage {
    const lfanew: nat
    const header: NeHeader
    const segments: seq<NESegment>
    const view: array<int>
    var imports: seq<ImageImport>

    ghost predicate Valid()
      reads view
    {
      IsBytes(view[..])
    }

    constructor (data: byteseq, lfanew: nat, header: NeHeader, segments: seq<NESegment>)
      ensures Valid() && fresh(view) && view[..] == data
      ensures this.lfanew == lfanew && this.header == header && this.segments == segments && imports == []
    {
      this.lfanew := lfanew;
      this.header := header;
      this.segments := segments;
      this.view := new int[|data|](i requires 0 <= i < |data| => data[i]);
      imports := [];
    }

    /** One patch written into the view at `at`. */
    method Write(at: nat, b: byteseq)
      requires Valid() && at + |b| <= view.Length
      modifies view
      ensures Valid() && view[..] == Overwrite(old(view[..]), at, b)
    {
      var j := 0;
      while j < |b|
        invariant j <= |b|
        invariant forall i :: 0 <= i < view.Length ==>
          view[i] == if at <= i < at + j then b[i - at] else old(view[i])
      {
        view[at + j] := b[j];
        j := j + 1;
      }
    }

    /** `seg_data[offset : offset + len(patch)] = patch` for each patch in order. */
    method ApplyPatches(lo: nat, size: nat, ps: seq<Patch>) returns (r: Result<()>)
      requires Valid()
      modifies view
      ensures Valid()
      ensures ApplyFrom(old(view[..]), lo, size, ps, 0).Ok? <==> r.Ok?
      ensures r.Ok? ==> view[..] == ApplyFrom(old(view[..]), lo, size, ps, 0).value
      ensures r.Err? ==> r.error == ApplyFrom(old(view[..]), lo, size, ps, 0).error
    {
      var k := 0;
      while k < |ps|
        invariant k <= |ps| && Valid()
        invariant ApplyFrom(old(view[..]), lo, size, ps, 0) == ApplyFrom(view[..], lo, size, ps, k)
      {
        ApplyStep(view[..], lo, size, ps, k);
        var ok := ApplyOne(lo, size, ps[k]);
        if !ok {
          return Err(ValueError);
        }
        k := k + 1;
      }
      return Ok(());
    }

    /** One patch: raises when it does not fit in the segment's bytes, otherwise written into the view. */
    method ApplyOne(lo: nat, size: nat, p: Patch) returns (ok: bool)
      requires Valid()
      modifies view
      ensures Valid()
      ensures ok <==> ApplyPatch(old(view[..]), lo, size, p).Ok?
      ensures ok ==> view[..] == ApplyPatch(old(view[..]), lo, size, p).value
    {
      var n := |Slice(view[..], lo, lo + size)|;
      if |p.bytes| > 0 && p.offset + |p.bytes| > n {
        return false;
      }
      ghost var before := view[..];
      if |p.bytes| > 0 {
        Write(lo + p.offset, p.bytes);
      } else {
        OverwriteNothing(before, lo + p.offset, p.bytes);
      }
      return true;
    }

    /** The segment loop of `__post_init__`: each segment's patch list computed, then written into the view. */
    method Relocate(addrs: map<Key, int>, entries: map<nat, NEEntry>) returns (r: Result<()>)
      requires Valid()
      modifies view
      ensures Valid()
      ensures RelocateFrom(old(view[..]), segments, addrs, entries, None, 0).Ok? <==> r.Ok?
      ensures r.Ok? ==> view[..] == RelocateFrom(old(view[..]), segments, addrs, entries, None, 0).value
      ensures r.Err? ==> r.error == RelocateFrom(old(view[..]), segments, addrs, entries, None, 0).error
    {
      var last: Option<byteseq> := None;
      var s := 0;
      while s < |segments|
        invariant s <= |segments| && Valid()
        invariant RelocateFrom(old(view[..]), segments, addrs, entries, None, 0) == RelocateFrom(view[..], segments, addrs, entries, last, s)
      {
        var seg := segments[s];
        var patches := SegmentPatches(seg, addrs, entries, segments, last);
        if patches.Err? {
          return Err(patches.error);
        }
        var (ps, after) := patches.value;
        var applied := ApplyPatches(seg.physOffset, seg.physSize, ps);
        if applied.Err? {
          return applied;
        }
        last := after;
        s := s + 1;
      }
      return Ok(());
    }

    /**
     * `__post_init__`: the entry table, the module names and the import
     * map, then the segments patched. A failure leaves the image unbuilt.
     */
    method PostInit() returns (r: Result<()>)
      requires Valid()
      modifies view, this`imports
      ensures Valid()
      ensures PostInitSpec(old(view[..]), lfanew, header, segments).Ok? <==> r.Ok?
      ensures r.Ok? ==> (view[..], imports) == PostInitSpec(old(view[..]), lfanew, header, segments).value
      ensures r.Err? ==> r.error == PostInitSpec(old(view[..]), lfanew, header, segments).error
    {
      var es := EntryTable(view[..], lfanew + header.enttab);
      if es.Err? {
        return Err(es.error);
      }
      var plan := PlanFrom(es.value, view[..], lfanew, header, segments);
      if plan.Err? {
        return Err(plan.error);
      }
      imports := plan.value.imports;
      r := Relocate(plan.value.addrs, plan.value.entries);
    }
  }
}
