/**
 * The segmented "New Executable" format of newexe.h: the 64-byte NE
 * header, the segment table (8 bytes per segment), the per-segment
 * relocation records with their chains of patch sites, the entry table of
 * bundles, and the translation between segment:offset pairs and the flat
 * virtual addresses the rest of the program uses (segment i at
 * (0x1000 + 8i) << 16).
 */
module Ne {
  import opened Wrappers
  import opened Bytes
  import opened TextCodec
  import PdbCommon

  /** `index_to_seg`: the selector of the 1-based segment `index`. */
  function IndexToSeg(index: int): int
  {
    0x1000 + 8 * (index - 1)
  }

  /** `pascal_string`: a length byte, then that many ASCII bytes, cut short at the end of the buffer. */
  function PascalString(data: byteseq): (r: Result<string>)
    ensures data == [] <==> r == Err(IndexError)
    ensures r.Ok? ==> |r.value| <= data[0] && |r.value| < |data|
  {
    if data == [] then Err(IndexError)
    else DecodeAscii(data[1..if data[0] + 1 <= |data| then data[0] + 1 else |data|])
  }

  /** The same rule as the PDB reader's `read_pascal_string` at offset 0, without the offset. */
  lemma PascalAgrees(data: byteseq)
    ensures PascalString(data) == (match PdbCommon.ReadPascalString(data, 0) case Ok((s, _)) => Ok(s) case Err(e) => Err(e))
  {}

  // ---- the NE header ----

  datatype NeHeader = NeHeader(
    ver: nat, rev: nat, enttab: nat, cbenttab: nat, crc: nat, flags: nat, autodata: nat,
    heap: nat, stack: nat, csip: (nat, nat), sssp: (nat, nat), cseg: nat, cmod: nat, cbnrestab: nat,
    segtab: nat, rsrctab: nat, restab: nat, modtab: nat, imptab: nat, nrestab: nat, cmovent: nat,
    align: nat, cres: nat, exetyp: nat, flagsothers: nat, pretthunks: nat, psegrefbytes: nat,
    swaparea: nat, expver: nat)

  /** The NETargetOSFlags values: unknown, OS/2, Windows, DOS 4.x, Windows 386. */
  predicate KnownTargetOs(t: int) { 0 <= t <= 4 }

  /**
   * `NewExeHeader.from_memory`: "NE", then the `<2s2B2HI16HI3H2B4H` fields
   * at the offsets of newexe.h's `struct new_exe`; CS:IP and SS:SP are
   * stored offset first and returned as (segment, offset).
   */
  function ReadHeader(data: byteseq, off: nat): (r: Result<(NeHeader, nat)>)
    ensures !CanRead(data, off, 2) ==> r == Err(StructError)
    ensures CanRead(data, off, 2) && data[off..off + 2] != [0x4E, 0x45] ==> r == Err(ValueError)
    ensures r.Ok? ==> CanRead(data, off, 64) && data[off..off + 2] == [0x4E, 0x45] && r.value.1 == off + 64
    ensures r.Ok? ==> r.value.0.csip == (U16(data, off + 22), U16(data, off + 20))
    ensures r.Ok? ==> r.value.0.sssp == (U16(data, off + 26), U16(data, off + 24))
    ensures r.Ok? ==> r.value.0.enttab == U16(data, off + 4) && r.value.0.segtab == U16(data, off + 34)
    ensures r.Ok? ==> r.value.0.cseg == U16(data, off + 28) && r.value.0.align == U16(data, off + 50)
    ensures r.Ok? ==> KnownTargetOs(r.value.0.exetyp)
  {
    if !CanRead(data, off, 2) then Err(StructError)
    else if data[off..off + 2] != [0x4E, 0x45] then Err(ValueError)
    else if !CanRead(data, off, 64) then Err(StructError)
    else if !KnownTargetOs(data[off + 54]) then Err(ValueError)
    else
      var h := NeHeader(
        data[off + 2], data[off + 3], U16(data, off + 4), U16(data, off + 6), U32(data, off + 8),
        U16(data, off + 12), U16(data, off + 14), U16(data, off + 16), U16(data, off + 18),
        (U16(data, off + 22), U16(data, off + 20)), (U16(data, off + 26), U16(data, off + 24)),
        U16(data, off + 28), U16(data, off + 30), U16(data, off + 32), U16(data, off + 34),
        U16(data, off + 36), U16(data, off + 38), U16(data, off + 40), U16(data, off + 42),
        U32(data, off + 44), U16(data, off + 48), U16(data, off + 50), U16(data, off + 52),
        data[off + 54], data[off + 55], U16(data, off + 56), U16(data, off + 58),
        U16(data, off + 60), U16(data, off + 62));
      Ok((h, off + 64))
  }

  // ---- the segment table ----

  datatype SegEntry = SegEntry(sector: nat, cbseg: nat, flags: nat, minalloc: nat)

  /** The four u16 words of a segment-table entry at `o`. */
  ghost predicate SegEntryAt(data: byteseq, o: nat, e: SegEntry)
  {
    CanRead(data, o, 8) && e == SegEntry(U16(data, o), U16(data, o + 2), U16(data, o + 4), U16(data, o + 6))
  }

  lemma EightDiv(n: nat, i: nat)
    requires i < n / 8
    ensures 8 * i + 8 <= n
  {}

  /**
   * `NESegmentTableEntry.from_memory`: `iter_unpack` over the `count * 8`
   * bytes at `off`; a table cut off in the middle of an entry raises, one
   * cut off at an entry boundary gives fewer entries.
   */
  function SegmentTable(data: byteseq, off: nat, count: nat): (r: Result<seq<SegEntry>>)
    ensures off + 8 * count <= |data| ==> r.Ok? && |r.value| == count
    ensures r.Ok? ==> |r.value| <= count
    ensures r.Ok? ==> forall i :: 0 <= i < |r.value| ==> SegEntryAt(data, off + 8 * i, r.value[i])
  {
    var raw := Slice(data, off, off + 8 * count);
    if |raw| % 8 != 0 then Err(StructError)
    else
      Ok(seq(|raw| / 8, i requires 0 <= i < |raw| / 8 =>
        EightDiv(|raw|, i);
        SegEntry(U16(raw, 8 * i), U16(raw, 8 * i + 2), U16(raw, 8 * i + 4), U16(raw, 8 * i + 6))))
  }

  /** `has_reloc`: bit 0x100 of the flags. */
  predicate HasReloc(e: SegEntry) { Field(e.flags, 8, 1) == 1 }

  // ---- relocations ----

  datatype RelocType = LoByte | SegmentRef | FarAddr | OffsetRef
  datatype RelocFlag = InternalRef | ImportOrdinal | ImportName | OsFixup
  datatype Relocation = Relocation(rtype: RelocType, flag: RelocFlag, offsets: seq<nat>, value0: nat, value1: nat)

  /** `NERelocationType(t)`: 0, 2, 3 and 5 are the only types. */
  function RelocTypeOf(t: int): (r: Result<RelocType>)
    ensures r.Ok? <==> t in {0, 2, 3, 5}
  {
    if t == 0 then Ok(LoByte) else if t == 2 then Ok(SegmentRef)
    else if t == 3 then Ok(FarAddr) else if t == 5 then Ok(OffsetRef)
    else Err(ValueError)
  }

  /** `NERelocationFlag(flag & 3)`. */
  function RelocFlagOf(f: nat): (r: RelocFlag)
    ensures r == InternalRef <==> f % 4 == 0
    ensures r == ImportOrdinal <==> f % 4 == 1
  {
    var b := Field(f, 0, 2);
    assert Pow2(2) == 4;
    if b == 0 then InternalRef else if b == 1 then ImportOrdinal else if b == 2 then ImportName else OsFixup
  }

  /** What following a chain of patch sites comes to. */
  datatype ChainOut = Ends(offs: seq<nat>) | ChainFails(error: Error)

  /** The offsets 0 .. n - 1 of a segment of n bytes. */
  function Offsets(n: nat): (r: set<nat>)
    ensures forall i: nat :: i in r <==> i < n
  {
    if n == 0 then {} else Offsets(n - 1) + {n - 1}
  }

  /**
   * `iter_reloc_chain` from `v`, `visited` holding the sites already
   * yielded: each site holds the u16 link to the next, 0xFFFF ends the
   * chain. Coming back to a visited site, the source loops forever.
   */
  function Chain(seg: byteseq, v: nat, visited: set<nat>): (r: ChainOut)
    requires visited <= Offsets(|seg|)
    ensures r.ChainFails? ==> r.error == StructError || r.error == Hang
    decreases Offsets(|seg|) - visited
  {
    if v == 0xFFFF then Ends([])
    else if v in visited then ChainFails(Hang)
    else if !CanRead(seg, v, 2) then ChainFails(StructError)
    else
      assert v in Offsets(|seg|);
      match Chain(seg, U16(seg, v), visited + {v})
      case Ends(o) => Ends([v] + o)
      case f => f
  }

  /** The chain as a loop; the visited set is what tells a cycle, on which the source never returns. */
  method IterRelocChain(seg: byteseq, start: nat) returns (r: ChainOut)
    ensures r == Chain(seg, start, {})
  {
    var offs: seq<nat> := [];
    var visited: set<nat> := {};
    var value: nat := start;
    while value != 0xFFFF
      invariant visited <= Offsets(|seg|)
      invariant Chain(seg, start, {}) == match Chain(seg, value, visited) case Ends(o) => Ends(offs + o) case f => f
      decreases Offsets(|seg|) - visited
    {
      if value in visited {
        return ChainFails(Hang);
      }
      if !CanRead(seg, value, 2) {
        return ChainFails(StructError);
      }
      assert value in Offsets(|seg|);
      ghost var rest := Chain(seg, U16(seg, value), visited + {value});
      assert rest.Ends? ==> offs + ([value] + rest.offs) == (offs + [value]) + rest.offs;
      offs := offs + [value];
      visited := visited + {value};
      value := U16(seg, value);
    }
    assert offs + [] == offs;
    return Ends(offs);
  }

  /**
   * A chain that ends visits distinct sites, each readable, the first the
   * start, each linking to the next and the last to 0xFFFF.
   */
  lemma {:induction false} ChainLinks(seg: byteseq, v: nat, visited: set<nat>)
    requires visited <= Offsets(|seg|) && Chain(seg, v, visited).Ends?
    ensures var o := Chain(seg, v, visited).offs;
      && (o == [] <==> v == 0xFFFF)
      && (o != [] ==> o[0] == v && U16At(seg, o[|o| - 1]) == 0xFFFF)
      && (forall i :: 0 <= i < |o| ==> CanRead(seg, o[i], 2) && o[i] !in visited)
      && (forall i :: 0 <= i && i + 1 < |o| ==> U16At(seg, o[i]) == o[i + 1])
      && (forall i, j :: 0 <= i < j < |o| ==> o[i] != o[j])
    decreases Offsets(|seg|) - visited
  {
    if v != 0xFFFF {
      assert v in Offsets(|seg|);
      var next := U16(seg, v);
      ChainLinks(seg, next, visited + {v});
      var rest := Chain(seg, next, visited + {v}).offs;
      var o := Chain(seg, v, visited).offs;
      assert o == [v] + rest;
      forall i | 0 <= i && i + 1 < |o| ensures U16At(seg, o[i]) == o[i + 1] {
        if i > 0 {
          assert o[i] == rest[i - 1] && o[i + 1] == rest[i];
        }
      }
      forall i, j | 0 <= i < j < |o| ensures o[i] != o[j] {
        if i > 0 {
          assert o[i] == rest[i - 1] && o[j] == rest[j - 1];
        } else {
          assert o[j] == rest[j - 1];
        }
      }
    }
  }

  /** The u16 at `o`, or -1 where none can be read. */
  function U16At(seg: byteseq, o: nat): int
  {
    if CanRead(seg, o, 2) then U16(seg, o) else -1
  }

  /** A site that links to itself makes the source loop forever. */
  lemma SelfLoopHangs(seg: byteseq, v: nat)
    requires v != 0xFFFF && CanRead(seg, v, 2) && U16(seg, v) == v
    ensures Chain(seg, v, {}) == ChainFails(Hang)
  {
    assert v in Offsets(|seg|);
  }

  /**
   * One relocation record of `iter_relocations` at index `j` of the table:
   * type, flag, chain start, value0, value1. An additive record (flag bit 2)
   * gets no patch sites; the chain is followed before the type is checked.
   */
  function ReadReloc(table: byteseq, seg: byteseq, j: nat): (r: Result<Relocation>)
    requires CanRead(table, 2 + 8 * j, 8)
    ensures r.Ok? ==> (r.value.flag == RelocFlagOf(table[2 + 8 * j + 1])
      && r.value.value0 == U16(table, 2 + 8 * j + 4) && r.value.value1 == U16(table, 2 + 8 * j + 6))
    ensures r.Ok? && Field(table[2 + 8 * j + 1], 2, 1) == 1 ==> r.value.offsets == []
    ensures r.Ok? && Field(table[2 + 8 * j + 1], 2, 1) == 0 ==> Chain(seg, U16(table, 2 + 8 * j + 2), {}) == Ends(r.value.offsets)
  {
    var o := 2 + 8 * j;
    var flag := table[o + 1];
    var offsets := if Field(flag, 2, 1) == 1 then Ends([]) else Chain(seg, U16(table, o + 2), {});
    match offsets
    case ChainFails(e) => Err(e)
    case Ends(offs) =>
      match RelocTypeOf(table[o])
      case Err(e) => Err(e)
      case Ok(t) => Ok(Relocation(t, RelocFlagOf(flag), offs, U16(table, o + 4), U16(table, o + 6)))
  }

  /** The records from index `j` of `n`, the first failure ending the segment's parse. */
  function RelocsFrom(table: byteseq, seg: byteseq, j: nat, n: nat): (r: Result<seq<Relocation>>)
    requires j <= n
    ensures r.Ok? ==> |r.value| == n - j
    decreases n - j
  {
    if j == n then Ok([])
    else if !CanRead(table, 2 + 8 * j, 8) then Err(StructError)
    else
      match ReadReloc(table, seg, j)
      case Err(e) => Err(e)
      case Ok(rel) =>
        match RelocsFrom(table, seg, j + 1, n)
        case Err(e) => Err(e)
        case Ok(rest) => Ok([rel] + rest)
  }

  /** `iter_relocations`: a u16 count, then 8 bytes per record. */
  function Relocations(table: byteseq, seg: byteseq): (r: Result<seq<Relocation>>)
    ensures r.Ok? ==> CanRead(table, 0, 2) && |r.value| == U16(table, 0)
  {
    if !CanRead(table, 0, 2) then Err(StructError) else RelocsFrom(table, seg, 0, U16(table, 0))
  }

  // ---- segments ----

  datatype NESegment = NESegment(address: int, physOffset: nat, physSize: nat, virtSize: nat, relocs: seq<Relocation>)

  /** One segment of `iter_segments`: a size of 0 stands for 64 KiB. */
  function SegmentOf(data: byteseq, i: nat, e: SegEntry, sectorSize: nat): (r: Result<NESegment>)
    ensures r.Ok? ==> r.value.address == IndexToSeg(i + 1) * 0x1_0000
    ensures r.Ok? ==> r.value.physOffset == e.sector * sectorSize
    ensures r.Ok? ==> r.value.physSize == (if e.cbseg == 0 then 0x1_0000 else e.cbseg)
    ensures r.Ok? ==> r.value.virtSize == (if e.minalloc == 0 then 0x1_0000 else e.minalloc)
    ensures r.Ok? && !HasReloc(e) ==> r.value.relocs == []
  {
    var physOffset := e.sector * sectorSize;
    var physSize := if e.cbseg != 0 then e.cbseg else 0x1_0000;
    var virtSize := if e.minalloc != 0 then e.minalloc else 0x1_0000;
    var segData := Slice(data, physOffset, physOffset + physSize);
    var relocs := if HasReloc(e) then Relocations(Slice(data, physOffset + physSize, |data|), segData) else Ok([]);
    match relocs
    case Err(err) => Err(err)
    case Ok(rs) => Ok(NESegment((0x1000 + 8 * i) * 0x1_0000, physOffset, physSize, virtSize, rs))
  }

  function SegmentsFrom(data: byteseq, es: seq<SegEntry>, i: nat, sectorSize: nat): (r: Result<seq<NESegment>>)
    requires i <= |es|
    ensures r.Ok? ==> |r.value| == |es| - i
    ensures r.Ok? ==> forall k :: 0 <= k < |r.value| ==> SegmentOf(data, i + k, es[i + k], sectorSize) == Ok(r.value[k])
    decreases |es| - i
  {
    if i == |es| then Ok([])
    else
      match SegmentOf(data, i, es[i], sectorSize)
      case Err(e) => Err(e)
      case Ok(s) =>
        match SegmentsFrom(data, es, i + 1, sectorSize)
        case Err(e) => Err(e)
        case Ok(rest) => SegmentsCons(data, es, i, sectorSize, s, rest); Ok([s] + rest)
  }

  lemma SegmentsCons(data: byteseq, es: seq<SegEntry>, i: nat, sectorSize: nat, s: NESegment, rest: seq<NESegment>)
    requires i < |es| && |rest| == |es| - (i + 1) && SegmentOf(data, i, es[i], sectorSize) == Ok(s)
    requires forall k :: 0 <= k < |rest| ==> SegmentOf(data, i + 1 + k, es[i + 1 + k], sectorSize) == Ok(rest[k])
    ensures forall k :: 0 <= k < |rest| + 1 ==> SegmentOf(data, i + k, es[i + k], sectorSize) == Ok(([s] + rest)[k])
  {
    forall k | 0 <= k < |rest| + 1 ensures SegmentOf(data, i + k, es[i + k], sectorSize) == Ok(([s] + rest)[k]) {
      if k == 0 {
        assert ([s] + rest)[0] == s;
      } else {
        var j := k - 1;
        assert ([s] + rest)[k] == rest[j];
        assert SegmentOf(data, i + 1 + j, es[i + 1 + j], sectorSize) == Ok(rest[j]);
        assert i + k == i + 1 + j;
      }
    }
  }

  /** `iter_segments`, consumed whole by `tuple`: any failure fails the lot. */
  function IterSegments(data: byteseq, tabOff: nat, count: nat, sectorSize: nat): (r: Result<seq<NESegment>>)
  {
    match SegmentTable(data, tabOff, count)
    case Err(e) => Err(e)
    case Ok(es) => SegmentsFrom(data, es, 0, sectorSize)
  }

  /**
   * Segment i sits at `index_to_seg(i + 1) << 16`, so distinct segments
   * get distinct selectors 8 apart, and both sizes are between 1 and 64 KiB
   * for a table of u16 words.
   */
  lemma SegmentAddresses(data: byteseq, tabOff: nat, count: nat, sectorSize: nat)
    requires IterSegments(data, tabOff, count, sectorSize).Ok?
    ensures var segs := IterSegments(data, tabOff, count, sectorSize).value;
      && |segs| <= count
      && (forall i :: 0 <= i < |segs| ==> segs[i].address == IndexToSeg(i + 1) * 0x1_0000)
      && (forall i :: 0 <= i < |segs| ==> 1 <= segs[i].physSize <= 0x1_0000 && 1 <= segs[i].virtSize <= 0x1_0000)
      && (forall i, j :: 0 <= i < j < |segs| ==> segs[i].address + 8 * 0x1_0000 <= segs[j].address)
  {
    var es := SegmentTable(data, tabOff, count).value;
    var segs := IterSegments(data, tabOff, count, sectorSize).value;
    forall i | 0 <= i < |segs| ensures 1 <= segs[i].physSize <= 0x1_0000 && 1 <= segs[i].virtSize <= 0x1_0000 {
      assert SegEntryAt(data, tabOff + 8 * i, es[i]);
      assert SegmentOf(data, i, es[i], sectorSize) == Ok(segs[i]);
    }
    forall i, j | 0 <= i < j < |segs| ensures segs[i].address + 8 * 0x1_0000 <= segs[j].address {
      assert SegmentOf(data, i, es[i], sectorSize) == Ok(segs[i]);
      assert SegmentOf(data, j, es[j], sectorSize) == Ok(segs[j]);
    }
  }

  // ---- the entry table ----

  datatype NEEntry = NEEntry(ordinal: nat, movable: bool, exported: bool, gDataseg: bool, segment: int, offset: int)

  /**
   * One slot of a bundle at `off`, the last ordinal used being `ordinal`:
   * indicator 255 is a movable entry (flag, 2 bytes skipped, segment, u16
   * offset), 0 a skipped ordinal taking one byte, anything else the segment
   * number of a fixed entry (flag, u16 offset). Flag bit 0 marks it
   * exported, bit 1 as using the global data segment. The result is the
   * entry, if any, and the offset after the slot.
   */
  function Slot(data: byteseq, off: nat, indicator: int, ordinal: nat): (r: Result<(Option<NEEntry>, nat)>)
    ensures r.Ok? ==> off < r.value.1
    ensures r.Ok? && r.value.0.Some? ==> r.value.0.value.ordinal == ordinal + 1
    ensures r.Ok? <==> indicator == 0 || CanRead(data, off, if indicator == 255 then 6 else 3)
    ensures r.Err? ==> r.error == StructError
  {
    if indicator == 0 then Ok((None, off + 1))
    else
      var width := if indicator == 255 then 6 else 3;
      if !CanRead(data, off, width) then Err(StructError)
      else
        var flag := data[off];
        var exported, gDataseg := Field(flag, 0, 1) == 1, Field(flag, 1, 1) == 1;
        if indicator == 255 then Ok((Some(NEEntry(ordinal + 1, true, exported, gDataseg, data[off + 3], U16(data, off + 4))), off + 6))
        else Ok((Some(NEEntry(ordinal + 1, false, exported, gDataseg, indicator, U16(data, off + 1))), off + 3))
  }

  function OptSeq<T>(o: Option<T>): seq<T>
  {
    if o.Some? then [o.value] else []
  }

  /** The `k` slots of one bundle from `off`: their entries and the offset after them. Ordinals count every slot. */
  function BundleSlots(data: byteseq, off: nat, indicator: int, ordinal: nat, k: nat): (r: Result<(seq<NEEntry>, nat)>)
    ensures r.Ok? ==> off <= r.value.1
    ensures r.Err? ==> r.error == StructError
    decreases k
  {
    if k == 0 then Ok(([], off))
    else
      match Slot(data, off, indicator, ordinal)
      case Err(e) => Err(e)
      case Ok((e, next)) =>
        match BundleSlots(data, next, indicator, ordinal + 1, k - 1)
        case Err(err) => Err(err)
        case Ok((rest, end)) => Ok((OptSeq(e) + rest, end))
  }

  /** Ordinals increase strictly through the slots, all between `ordinal + 1` and `ordinal + k`. */
  ghost predicate OrdinalsWithin(es: seq<NEEntry>, lo: int, hi: int)
  {
    && (forall i :: 0 <= i < |es| ==> lo < es[i].ordinal <= hi)
    && (forall i, j :: 0 <= i < j < |es| ==> es[i].ordinal < es[j].ordinal)
  }

  lemma {:induction false} SlotOrdinals(data: byteseq, off: nat, indicator: int, ordinal: nat, k: nat)
    requires BundleSlots(data, off, indicator, ordinal, k).Ok?
    ensures OrdinalsWithin(BundleSlots(data, off, indicator, ordinal, k).value.0, ordinal, ordinal + k)
    decreases k
  {
    if k > 0 {
      var (e, next) := Slot(data, off, indicator, ordinal).value;
      SlotOrdinals(data, next, indicator, ordinal + 1, k - 1);
      var rest := BundleSlots(data, next, indicator, ordinal + 1, k - 1).value.0;
      var es := BundleSlots(data, off, indicator, ordinal, k).value.0;
      assert es == OptSeq(e) + rest;
      if e.Some? {
        assert es == [e.value] + rest;
        forall i, j | 0 <= i < j < |es| ensures es[i].ordinal < es[j].ordinal {
          assert es[j] == rest[j - 1];
          if i > 0 {
            assert es[i] == rest[i - 1];
          }
        }
      }
    }
  }

  /** The bundles from `off`: a count byte and an indicator byte each, a count of 0 ending the table. */
  function Bundles(data: byteseq, off: nat, ordinal: nat): (r: Result<seq<NEEntry>>)
    ensures r.Err? ==> r.error == StructError
    decreases |data| - off
  {
    if !CanRead(data, off, 2) then Err(StructError)
    else if data[off] == 0 then Ok([])
    else
      match BundleSlots(data, off + 2, data[off + 1], ordinal, data[off])
      case Err(e) => Err(e)
      case Ok((es, next)) =>
        match Bundles(data, next, ordinal + data[off])
        case Err(e) => Err(e)
        case Ok(rest) => Ok(es + rest)
  }

  /** The entry table's ordinals are 1-based and strictly increasing: each names one entry. */
  lemma {:induction false} EntryOrdinals(data: byteseq, off: nat, ordinal: nat)
    requires Bundles(data, off, ordinal).Ok?
    ensures var es := Bundles(data, off, ordinal).value;
      && (forall i :: 0 <= i < |es| ==> ordinal < es[i].ordinal)
      && (forall i, j :: 0 <= i < j < |es| ==> es[i].ordinal < es[j].ordinal)
    decreases |data| - off
  {
    if data[off] != 0 {
      var n := data[off];
      var (bs, next) := BundleSlots(data, off + 2, data[off + 1], ordinal, n).value;
      SlotOrdinals(data, off + 2, data[off + 1], ordinal, n);
      EntryOrdinals(data, next, ordinal + n);
      var rest := Bundles(data, next, ordinal + n).value;
      assert Bundles(data, off, ordinal).value == bs + rest;
      ConcatOrdered(bs, rest, ordinal, ordinal + n);
    }
  }

  /** Two runs of increasing ordinals, the second above the first's bound, make one run. */
  lemma ConcatOrdered(bs: seq<NEEntry>, rest: seq<NEEntry>, lo: int, mid: int)
    requires lo <= mid && OrdinalsWithin(bs, lo, mid)
    requires forall i :: 0 <= i < |rest| ==> mid < rest[i].ordinal
    requires forall i, j :: 0 <= i < j < |rest| ==> rest[i].ordinal < rest[j].ordinal
    ensures forall i :: 0 <= i < |bs + rest| ==> lo < (bs + rest)[i].ordinal
    ensures forall i, j :: 0 <= i < j < |bs + rest| ==> (bs + rest)[i].ordinal < (bs + rest)[j].ordinal
  {
    var es := bs + rest;
    forall i | 0 <= i < |es| ensures lo < es[i].ordinal {
      if i >= |bs| {
        assert es[i] == rest[i - |bs|];
      }
    }
    forall i, j | 0 <= i < j < |es| ensures es[i].ordinal < es[j].ordinal {
      if j >= |bs| {
        assert es[j] == rest[j - |bs|];
        if i >= |bs| {
          assert es[i] == rest[i - |bs|];
        }
      }
    }
  }

  /** `es` followed by what `r` found, or `r`'s failure. */
  function Glue(es: seq<NEEntry>, r: Result<seq<NEEntry>>): Result<seq<NEEntry>>
  {
    match r
    case Ok(rest) => Ok(es + rest)
    case Err(e) => Err(e)
  }

  function GlueSlots(es: seq<NEEntry>, r: Result<(seq<NEEntry>, nat)>): Result<(seq<NEEntry>, nat)>
  {
    match r
    case Ok((rest, end)) => Ok((es + rest, end))
    case Err(e) => Err(e)
  }

  lemma GlueAppend(es: seq<NEEntry>, more: seq<NEEntry>, r: Result<seq<NEEntry>>)
    ensures Glue(es, Glue(more, r)) == Glue(es + more, r)
  {
    if r.Ok? {
      assert es + (more + r.value) == (es + more) + r.value;
    }
  }

  /** `NEEntry.from_memory`: the bundle loop, the slot loop inside it. */
  method EntryTable(data: byteseq, offset: nat) returns (r: Result<seq<NEEntry>>)
    ensures r == Bundles(data, offset, 0)
  {
    var ordinal: nat := 0;
    var off := offset;
    var entries: seq<NEEntry> := [];
    ghost var all := Bundles(data, offset, 0);
    assert all.Ok? ==> entries + all.value == all.value;
    while true
      invariant all == Glue(entries, Bundles(data, off, ordinal))
      decreases |data| - off
    {
      if !CanRead(data, off, 2) {
        return Err(StructError);
      }
      var n, indicator := data[off], data[off + 1];
      if n == 0 {
        assert entries + [] == entries;
        return Ok(entries);
      }
      var bundle := ReadBundle(data, off + 2, indicator, ordinal, n);
      if bundle.Err? {
        return Err(StructError);
      }
      var (es, next) := bundle.value;
      GlueAppend(entries, es, Bundles(data, next, ordinal + n));
      entries := entries + es;
      off := next;
      ordinal := ordinal + n;
    }
  }

  /** The slot loop of one bundle. */
  method ReadBundle(data: byteseq, off: nat, indicator: int, ordinal: nat, count: nat)
    returns (r: Result<(seq<NEEntry>, nat)>)
    ensures r == BundleSlots(data, off, indicator, ordinal, count)
  {
    var es: seq<NEEntry> := [];
    var o := off;
    var j := 0;
    ghost var all := BundleSlots(data, off, indicator, ordinal, count);
    GlueSlotsNil(all);
    while j < count
      invariant 0 <= j <= count
      invariant all == GlueSlots(es, BundleSlots(data, o, indicator, ordinal + j, count - j))
    {
      var slot := Slot(data, o, indicator, ordinal + j);
      if slot.Err? {
        return Err(StructError);
      }
      var (e, after) := slot.value;
      SlotsStep(data, o, indicator, ordinal + j, count - j, es, e, after);
      es := es + OptSeq(e);
      o, j := after, j + 1;
    }
    assert es + [] == es;
    return Ok((es, o));
  }

  lemma GlueSlotsNil(r: Result<(seq<NEEntry>, nat)>)
    ensures GlueSlots([], r) == r
  {
    if r.Ok? {
      assert [] + r.value.0 == r.value.0;
    }
  }

  /** One slot read: its entry, if any, moves from the slots still to read to those already read. */
  lemma SlotsStep(data: byteseq, o: nat, indicator: int, ordinal: nat, k: nat, es: seq<NEEntry>, e: Option<NEEntry>, after: nat)
    requires k > 0 && Slot(data, o, indicator, ordinal) == Ok((e, after))
    ensures GlueSlots(es, BundleSlots(data, o, indicator, ordinal, k))
      == GlueSlots(es + OptSeq(e), BundleSlots(data, after, indicator, ordinal + 1, k - 1))
  {
    var rest := BundleSlots(data, after, indicator, ordinal + 1, k - 1);
    if rest.Ok? {
      assert es + (OptSeq(e) + rest.value.0) == (es + OptSeq(e)) + rest.value.0;
    }
  }

  // ---- addresses ----

  /** `NESegment.range`: from the address, as far as the larger of the two sizes. */
  predicate InRange(s: NESegment, addr: int)
  {
    s.address <= addr < s.address + (if s.physSize > s.virtSize then s.physSize else s.virtSize)
  }

  function RelativeFrom(segs: seq<NESegment>, addr: int, i: nat): (r: Result<(nat, int)>)
    requires i <= |segs|
    ensures r.Ok? ==> (i < r.value.0 <= |segs| && InRange(segs[r.value.0 - 1], addr)
      && r.value.1 == addr - segs[r.value.0 - 1].address
      && forall j :: i <= j < r.value.0 - 1 ==> !InRange(segs[j], addr))
    ensures r.Err? <==> forall j :: i <= j < |segs| ==> !InRange(segs[j], addr)
    ensures r.Err? ==> r.error == InvalidAddress
    decreases |segs| - i
  {
    if i == |segs| then Err(InvalidAddress)
    else if InRange(segs[i], addr) then Ok((i + 1, addr - segs[i].address))
    else RelativeFrom(segs, addr, i + 1)
  }

  /**
   * `get_relative_addr`: the 1-based index of the first segment whose range
   * holds `addr`, and the offset into it.
   */
  function GetRelativeAddr(segs: seq<NESegment>, addr: int): (r: Result<(nat, int)>)
    ensures r.Ok? ==> (1 <= r.value.0 <= |segs| && InRange(segs[r.value.0 - 1], addr)
      && r.value.1 == addr - segs[r.value.0 - 1].address
      && forall j :: 0 <= j < r.value.0 - 1 ==> !InRange(segs[j], addr))
    ensures r.Err? <==> forall j :: 0 <= j < |segs| ==> !InRange(segs[j], addr)
  {
    RelativeFrom(segs, addr, 0)
  }

  /**
   * `get_abs_addr` as written: `segments[section - 1]` with Python's
   * negative indexing, so section 0 is the last segment and only an index
   * outside -|segs|..|segs|-1 raises.
   */
  function GetAbsAddrAsWritten(segs: seq<NESegment>, section: int, offset: int): (r: Result<int>)
    ensures r.Ok? <==> -|segs| < section <= |segs|
  {
    var k := section - 1;
    if -|segs| <= k < |segs| then Ok(segs[if k < 0 then |segs| + k else k].address + offset)
    else Err(InvalidAddress)
  }

  /** Section 0 is not rejected: it is taken to be the last segment. */
  lemma SectionZeroIsLast(segs: seq<NESegment>, offset: int)
    requires segs != []
    ensures GetAbsAddrAsWritten(segs, 0, offset) == Ok(segs[|segs| - 1].address + offset)
  {}

  /** `get_abs_addr` as intended: sections are 1-based, like `_get_segment`, which asserts `index > 0`. */
  function GetAbsAddr(segs: seq<NESegment>, section: int, offset: int): (r: Result<int>)
    ensures r.Ok? <==> 1 <= section <= |segs|
    ensures r.Ok? ==> r == GetAbsAddrAsWritten(segs, section, offset) && r.value == segs[section - 1].address + offset
    ensures r.Err? ==> r.error == InvalidAddress
  {
    if 1 <= section <= |segs| then Ok(segs[section - 1].address + offset) else Err(InvalidAddress)
  }

  /** Translating an address to segment:offset and back gives the address. */
  lemma AbsOfRelative(segs: seq<NESegment>, addr: int)
    requires GetRelativeAddr(segs, addr).Ok?
    ensures var (s, o) := GetRelativeAddr(segs, addr).value;
      GetAbsAddr(segs, s, o) == Ok(addr) && GetAbsAddrAsWritten(segs, s, o) == Ok(addr)
  {}

  /** Every address inside some segment's range translates. */
  lemma RelativeDefined(segs: seq<NESegment>, addr: int, i: nat)
    requires i < |segs| && InRange(segs[i], addr)
    ensures GetRelativeAddr(segs, addr).Ok? && GetRelativeAddr(segs, addr).value.0 <= i + 1
  {}

  /**
   * `seek`: the bytes of the segment from the address on and how much of
   * the segment is left; an offset past the virtual size raises.
   */
  function Seek(segs: seq<NESegment>, view: byteseq, vaddr: int): (r: Result<(byteseq, int)>)
    ensures r.Ok? ==> GetRelativeAddr(segs, vaddr).Ok?
    ensures r.Ok? ==> var (s, o) := GetRelativeAddr(segs, vaddr).value;
      && 0 <= o <= segs[s - 1].virtSize && r.value.1 == segs[s - 1].virtSize - o
      && |r.value.0| <= (if o < segs[s - 1].physSize then segs[s - 1].physSize - o else 0)
      && (r.value.0 != [] ==> segs[s - 1].physOffset + o + |r.value.0| <= |view|)
      && forall i :: 0 <= i < |r.value.0| ==> r.value.0[i] == view[segs[s - 1].physOffset + o + i]
    ensures GetRelativeAddr(segs, vaddr).Ok? ==> var (s, o) := GetRelativeAddr(segs, vaddr).value;
      r.Err? <==> o > segs[s - 1].virtSize
  {
    match GetRelativeAddr(segs, vaddr)
    case Err(e) => Err(e)
    case Ok((s, o)) =>
      var seg := segs[s - 1];
      if o > seg.virtSize then Err(InvalidAddress)
      else if seg.physSize == 0 then
        var none: byteseq := [];
        Ok((none, seg.virtSize - o))
      else Ok((Slice(view, seg.physOffset + o, seg.physOffset + seg.physSize), seg.virtSize - o))
  }
}
