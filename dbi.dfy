/**
 * The DBI stream of a PDB (reccmp/isledecomp/formats/pdb/dbi.py): its
 * header in the old (DBIHdr) and new (NewDBIHdr) layouts, the section
 * contribution and module records, and the loop of `parse_modules` that
 * reads the module records and prints one line for each.
 */
module Dbi {
  import opened Wrappers
  import opened Bytes
  import opened StructFormat
  import opened PdbCommon

  // The header

  datatype DbiHeader = DbiHeader(
    version: nat, globalStreamId: nat, publicStreamId: nat, symbolStreamId: nat,
    moduleInfoSize: nat, sectionContributionSize: nat, sectionMapSize: nat, sourceInfoSize: nat)

  /** "<I4xH2xH2xH2x4I" after the signature: each pad is a field whose value is dropped. */
  const NewHeaderFormat: seq<nat> := [4, 4, 2, 2, 2, 2, 2, 2, 4, 4, 4, 4]
  /** "<3H2x4I" from the start of the stream. */
  const OldHeaderFormat: seq<nat> := [2, 2, 2, 2, 4, 4, 4, 4]

  /** Where the module records start after each header. */
  const NewHeaderEnd: nat := 64
  const OldHeaderEnd: nat := 24

  /** The signature that selects the new header: -1 read as a signed 32-bit value. */
  const NewSignature: nat := 0xFFFF_FFFF

  lemma NewHeaderShape()
    ensures IsFormat(NewHeaderFormat) && |NewHeaderFormat| == 12 && CalcSize(NewHeaderFormat) == 36
  {
    assert SizeFrom(NewHeaderFormat, 12) == 0;
    assert SizeFrom(NewHeaderFormat, 11) == 4;
    assert SizeFrom(NewHeaderFormat, 10) == 8;
    assert SizeFrom(NewHeaderFormat, 9) == 12;
    assert SizeFrom(NewHeaderFormat, 8) == 16;
    assert SizeFrom(NewHeaderFormat, 7) == 18;
    assert SizeFrom(NewHeaderFormat, 6) == 20;
    assert SizeFrom(NewHeaderFormat, 5) == 22;
    assert SizeFrom(NewHeaderFormat, 4) == 24;
    assert SizeFrom(NewHeaderFormat, 3) == 26;
    assert SizeFrom(NewHeaderFormat, 2) == 28;
    assert SizeFrom(NewHeaderFormat, 1) == 32;
    assert SizeFrom(NewHeaderFormat, 0) == 36;
  }

  lemma OldHeaderShape()
    ensures IsFormat(OldHeaderFormat) && |OldHeaderFormat| == 8 && CalcSize(OldHeaderFormat) == 24
  {
    assert SizeFrom(OldHeaderFormat, 8) == 0;
    assert SizeFrom(OldHeaderFormat, 7) == 4;
    assert SizeFrom(OldHeaderFormat, 6) == 8;
    assert SizeFrom(OldHeaderFormat, 5) == 12;
    assert SizeFrom(OldHeaderFormat, 4) == 16;
    assert SizeFrom(OldHeaderFormat, 3) == 18;
    assert SizeFrom(OldHeaderFormat, 2) == 20;
    assert SizeFrom(OldHeaderFormat, 1) == 22;
    assert SizeFrom(OldHeaderFormat, 0) == 24;
  }

  /** `DBIHeader.from_bytes`: the header and the offset of the module records. */
  function ReadDbiHeader(data: byteseq): (r: Result<(DbiHeader, nat)>)
    ensures !CanRead(data, 0, 4) ==> r == Err(StructError)
    ensures r.Err? ==> r.error == StructError
    ensures CanRead(data, 0, 4) ==>
      (r.Ok? <==> if U32(data, 0) == NewSignature then CanRead(data, 4, 36) else CanRead(data, 0, 24))
    ensures r.Ok? ==> r.value.1 == (if U32(data, 0) == NewSignature then NewHeaderEnd else OldHeaderEnd)
    ensures r.Ok? && U32(data, 0) != NewSignature ==> r.value.0.version == 0
  {
    if !CanRead(data, 0, 4) then Err(StructError)
    else if U32(data, 0) == NewSignature then
      NewHeaderShape();
      var f :- Unpack(NewHeaderFormat, data, 4);
      Ok((DbiHeader(f[0], f[2], f[4], f[6], f[8], f[9], f[10], f[11]), NewHeaderEnd))
    else
      OldHeaderShape();
      var f :- Unpack(OldHeaderFormat, data, 0);
      Ok((DbiHeader(0, f[0], f[1], f[2], f[4], f[5], f[6], f[7]), OldHeaderEnd))
  }

  function NewHeaderFields(hd: DbiHeader): seq<nat>
  {
    [hd.version, 0, hd.globalStreamId, 0, hd.publicStreamId, 0, hd.symbolStreamId, 0,
     hd.moduleInfoSize, hd.sectionContributionSize, hd.sectionMapSize, hd.sourceInfoSize]
  }

  function OldHeaderFields(hd: DbiHeader): seq<nat>
  {
    [hd.globalStreamId, hd.publicStreamId, hd.symbolStreamId, 0,
     hd.moduleInfoSize, hd.sectionContributionSize, hd.sectionMapSize, hd.sourceInfoSize]
  }

  /** A header whose fields fit the new layout. */
  predicate NewHeaderOk(hd: DbiHeader)
  {
    Fits(NewHeaderFormat, NewHeaderFields(hd))
  }

  /**
   * A header the old layout can hold: it has no version, and its first four
   * bytes, the global and public stream ids, must not spell the new signature.
   */
  predicate OldHeaderOk(hd: DbiHeader)
  {
    && Fits(OldHeaderFormat, OldHeaderFields(hd)) && hd.version == 0
    && !(hd.globalStreamId == 0xFFFF && hd.publicStreamId == 0xFFFF)
  }

  function EncodeNewHeader(hd: DbiHeader): seq<int>
    requires NewHeaderOk(hd)
  {
    PackU32(NewSignature) + Pack(NewHeaderFormat, NewHeaderFields(hd))
  }

  function EncodeOldHeader(hd: DbiHeader): seq<int>
    requires OldHeaderOk(hd)
  {
    Pack(OldHeaderFormat, OldHeaderFields(hd))
  }

  /** The reader's view of the new header's fields. */
  lemma NewHeaderRead(data: byteseq, f: seq<nat>)
    requires CanRead(data, 0, 4) && U32(data, 0) == NewSignature
    requires Unpack(NewHeaderFormat, data, 4) == Ok(f) && |f| == 12
    ensures ReadDbiHeader(data) == Ok((DbiHeader(f[0], f[2], f[4], f[6], f[8], f[9], f[10], f[11]), NewHeaderEnd))
  {
  }

  lemma NewHeaderFieldsBack(hd: DbiHeader, f: seq<nat>)
    requires f == NewHeaderFields(hd)
    ensures |f| == 12 && DbiHeader(f[0], f[2], f[4], f[6], f[8], f[9], f[10], f[11]) == hd
  {
  }

  /** A new header reads back, and the module records start at offset 64. */
  lemma NewHeaderRoundTrip(hd: DbiHeader, data: byteseq)
    requires NewHeaderOk(hd) && At(data, 0, EncodeNewHeader(hd))
    ensures ReadDbiHeader(data) == Ok((hd, NewHeaderEnd))
  {
    NewHeaderShape();
    var f := NewHeaderFields(hd);
    AtSplitAt(data, 0, PackU32(NewSignature), Pack(NewHeaderFormat, f), 4);
    U32At(data, 0, NewSignature);
    UnpackPack(NewHeaderFormat, f, data, 4);
    NewHeaderFieldsBack(hd, f);
    NewHeaderRead(data, f);
  }

  /** The reader's view of the old header's fields. */
  lemma OldHeaderRead(data: byteseq, f: seq<nat>)
    requires CanRead(data, 0, 4) && U32(data, 0) != NewSignature
    requires Unpack(OldHeaderFormat, data, 0) == Ok(f) && |f| == 8
    ensures ReadDbiHeader(data) == Ok((DbiHeader(0, f[0], f[1], f[2], f[4], f[5], f[6], f[7]), OldHeaderEnd))
  {
  }

  lemma OldHeaderFieldsBack(hd: DbiHeader, f: seq<nat>)
    requires f == OldHeaderFields(hd) && hd.version == 0
    ensures |f| == 8 && DbiHeader(0, f[0], f[1], f[2], f[4], f[5], f[6], f[7]) == hd
  {
  }

  /** The first two fields of the old header are the two halves of the first 32-bit word. */
  lemma OldHeaderStreams(data: byteseq, f: seq<nat>)
    requires Unpack(OldHeaderFormat, data, 0) == Ok(f)
    ensures CanRead(data, 0, 4) && |f| == 8 && U32(data, 0) == f[0] + 0x1_0000 * f[1]
  {
    OldHeaderShape();
    ValueAt(OldHeaderFormat, data, 0, 0, 0);
    ValueAt(OldHeaderFormat, data, 0, 0, 1);
    assert SizeFrom(OldHeaderFormat, 1) == 22;
  }

  /** Two 16-bit ids spell the new signature only when both are 0xFFFF. */
  lemma NotSignature(g: nat, p: nat)
    requires g < 0x1_0000 && p < 0x1_0000 && !(g == 0xFFFF && p == 0xFFFF)
    ensures g + 0x1_0000 * p != NewSignature
  {
  }

  /** An old header reads back with version 0, and the module records start at offset 24. */
  lemma OldHeaderRoundTrip(hd: DbiHeader, data: byteseq)
    requires OldHeaderOk(hd) && At(data, 0, EncodeOldHeader(hd))
    ensures ReadDbiHeader(data) == Ok((hd, OldHeaderEnd))
  {
    OldHeaderShape();
    var f := OldHeaderFields(hd);
    UnpackPack(OldHeaderFormat, f, data, 0);
    OldHeaderFieldsBack(hd, f);
    OldHeaderStreams(data, f);
    NotSignature(f[0], f[1]);
    OldHeaderRead(data, f);
  }

  // Section contributions

  /** A 16- or 32-bit field read with a signed format ("h", "i"). */
  function Signed(w: nat, u: nat): (x: int)
    requires w == 2 || w == 4
  {
    if u < Limit(w) / 2 then u else u - Limit(w)
  }

  /** The field that `struct.pack` writes for a signed value. */
  function Unsigned(w: nat, x: int): (u: nat)
    requires (w == 2 || w == 4) && -(Limit(w) / 2) <= x < Limit(w) / 2
    ensures u < Limit(w) && Signed(w, u) == x
  {
    if x >= 0 then x else x + Limit(w)
  }

  datatype SectionContribution = SectionContribution(
    section: nat, offset: int, size: int, characteristics: nat, moduleIndex: nat, dataCrc: nat, relocCrc: nat)

  /** "<H2x2iIH2x2I": 28 bytes. */
  const NewScFormat: seq<nat> := [2, 2, 4, 4, 4, 2, 2, 4, 4]
  /** "<4IH2x": 20 bytes. */
  const OldScFormat: seq<nat> := [4, 4, 4, 4, 2, 2]

  function ScSize(modi60: bool): nat { if modi60 then 28 else 20 }

  lemma NewScShape()
    ensures IsFormat(NewScFormat) && |NewScFormat| == 9 && CalcSize(NewScFormat) == 28
  {
    assert SizeFrom(NewScFormat, 9) == 0;
    assert SizeFrom(NewScFormat, 8) == 4;
    assert SizeFrom(NewScFormat, 7) == 8;
    assert SizeFrom(NewScFormat, 6) == 10;
    assert SizeFrom(NewScFormat, 5) == 12;
    assert SizeFrom(NewScFormat, 4) == 16;
    assert SizeFrom(NewScFormat, 3) == 20;
    assert SizeFrom(NewScFormat, 2) == 24;
    assert SizeFrom(NewScFormat, 1) == 26;
    assert SizeFrom(NewScFormat, 0) == 28;
  }

  lemma OldScShape()
    ensures IsFormat(OldScFormat) && |OldScFormat| == 6 && CalcSize(OldScFormat) == 20
  {
    assert SizeFrom(OldScFormat, 6) == 0;
    assert SizeFrom(OldScFormat, 5) == 2;
    assert SizeFrom(OldScFormat, 4) == 4;
    assert SizeFrom(OldScFormat, 3) == 8;
    assert SizeFrom(OldScFormat, 2) == 12;
    assert SizeFrom(OldScFormat, 1) == 16;
    assert SizeFrom(OldScFormat, 0) == 20;
  }


  function ScFormat(modi60: bool): seq<nat> { if modi60 then NewScFormat else OldScFormat }

  /** The record from its unpacked fields: the new layout's offset and size are signed. */
  function ScOf(f: seq<nat>, modi60: bool): SectionContribution
    requires |f| == |ScFormat(modi60)|
  {
    if modi60 then SectionContribution(f[0], Signed(4, f[2]), Signed(4, f[3]), f[4], f[5], f[7], f[8])
    else SectionContribution(f[0], f[1], f[2], f[3], f[4], 0, 0)
  }

  /** `SectionContribution.from_bytes`: the record and the offset after it. */
  function ReadSectionContribution(data: byteseq, off: nat, modi60: bool): (r: Result<(SectionContribution, nat)>)
    ensures r.Ok? <==> CanRead(data, off, ScSize(modi60))
    ensures r.Err? ==> r.error == StructError
    ensures r.Ok? ==> r.value.1 == off + ScSize(modi60)
    ensures r.Ok? && !modi60 ==> r.value.0.dataCrc == 0 && r.value.0.relocCrc == 0
  {
    NewScShape();
    OldScShape();
    var f :- Unpack(ScFormat(modi60), data, off);
    Ok((ScOf(f, modi60), off + ScSize(modi60)))
  }

  /** The signed fields of the new layout are in range; the old layout has unsigned ones and no CRCs. */
  predicate ScRanges(sc: SectionContribution, modi60: bool)
  {
    if modi60 then -0x8000_0000 <= sc.offset < 0x8000_0000 && -0x8000_0000 <= sc.size < 0x8000_0000
    else 0 <= sc.offset && 0 <= sc.size && sc.dataCrc == 0 && sc.relocCrc == 0
  }

  function ScFields(sc: SectionContribution, modi60: bool): seq<nat>
    requires ScRanges(sc, modi60)
  {
    if modi60 then
      [sc.section, 0, Unsigned(4, sc.offset), Unsigned(4, sc.size), sc.characteristics, sc.moduleIndex, 0, sc.dataCrc, sc.relocCrc]
    else
      [sc.section, sc.offset as nat, sc.size as nat, sc.characteristics, sc.moduleIndex, 0]
  }

  /** A contribution the layout can hold. */
  predicate ScOk(sc: SectionContribution, modi60: bool)
  {
    ScRanges(sc, modi60) && Fits(ScFormat(modi60), ScFields(sc, modi60))
  }

  function EncodeSectionContribution(sc: SectionContribution, modi60: bool): (b: seq<int>)
    requires ScOk(sc, modi60)
    ensures |b| == ScSize(modi60)
  {
    NewScShape();
    OldScShape();
    Pack(ScFormat(modi60), ScFields(sc, modi60))
  }

  lemma ScFieldsBack(sc: SectionContribution, modi60: bool)
    requires ScRanges(sc, modi60)
    ensures |ScFields(sc, modi60)| == |ScFormat(modi60)| && ScOf(ScFields(sc, modi60), modi60) == sc
  {
  }

  /** A written contribution reads back in its layout, whatever follows it. */
  lemma SectionContributionRoundTrip(sc: SectionContribution, modi60: bool, data: byteseq, off: nat)
    requires ScOk(sc, modi60) && At(data, off, EncodeSectionContribution(sc, modi60))
    ensures ReadSectionContribution(data, off, modi60) == Ok((sc, off + ScSize(modi60)))
  {
    NewScShape();
    OldScShape();
    UnpackPack(ScFormat(modi60), ScFields(sc, modi60), data, off);
    ScFieldsBack(sc, modi60);
  }

  // Module records

  datatype ModuleInfo = ModuleInfo(
    sc: SectionContribution, streamId: int, symbolSize: nat, c11LinesSize: nat, c13LinesSize: nat,
    moduleName: string, objName: string)

  /** "<2xh2x3I" in MODI60 (32 bytes skipped) and "<2xh2x2I" in MODI50 (24 bytes skipped). */
  function ModFormat(modi60: bool): seq<nat> { if modi60 then [2, 2, 2, 4, 4, 4] else [2, 2, 2, 4, 4] }

  lemma ModShape(modi60: bool)
    ensures IsFormat(ModFormat(modi60)) && |ModFormat(modi60)| == if modi60 then 6 else 5
  {
  }

  /** The bytes skipped after the contribution. */
  function ModSkip(modi60: bool): nat { if modi60 then 32 else 24 }

  /** The record from its contribution, its unpacked fields and its names. */
  function ModuleOf(sc: SectionContribution, f: seq<nat>, modi60: bool, moduleName: string, objName: string): (m: ModuleInfo)
    requires |f| == |ModFormat(modi60)|
    ensures m.sc == sc && m.moduleName == moduleName && m.objName == objName
    ensures !modi60 ==> m.c13LinesSize == 0
  {
    ModuleInfo(sc, Signed(2, f[1]), f[3], f[4], if modi60 then f[5] else 0, moduleName, objName)
  }

  /** The module name and the object name, each ended by a NUL, and the offset after them. */
  function ReadNames(data: byteseq, off: nat): (r: Result<(string, string, nat)>)
    ensures r.Ok? ==> r.value.2 == off + |r.value.0| + |r.value.1| + 2
  {
    var (moduleName, o2) :- SzString(data, off);
    var (objName, o3) :- SzString(data, o2);
    Ok((moduleName, objName, o3))
  }

  /**
   * `ModuleInfo.from_bytes`: realign to 4, skip 4 unused bytes, read the
   * contribution and the fixed fields, skip past them, then read the
   * module and object names.
   */
  function ReadModuleInfo(data: byteseq, off: nat, modi60: bool): (r: Result<(ModuleInfo, nat)>)
    ensures r.Ok? ==> r.value.1 == AlignTo(off, 4) + 4 + ScSize(modi60) + ModSkip(modi60) + |r.value.0.moduleName| + |r.value.0.objName| + 2
    ensures r.Ok? && !modi60 ==> r.value.0.c13LinesSize == 0
  {
    var (sc, o1) :- ReadSectionContribution(data, AlignTo(off, 4) + 4, modi60);
    ModShape(modi60);
    var f :- Unpack(ModFormat(modi60), data, o1);
    var (moduleName, objName, next) :- ReadNames(data, o1 + ModSkip(modi60));
    Ok((ModuleOf(sc, f, modi60, moduleName, objName), next))
  }

  /** A module record read never ends before 4 + 20 + 24 + 2 bytes past where it started. */
  lemma ModuleInfoAdvances(data: byteseq, off: nat, modi60: bool)
    requires ReadModuleInfo(data, off, modi60).Ok?
    ensures ReadModuleInfo(data, off, modi60).value.1 >= off + 50
  {
  }

  // The loop of parse_modules

  /** The printed line: index, stream id, the larger line-info size, object name, module name. */
  datatype ModuleLine = ModuleLine(idx: nat, streamId: int, linesSize: nat, objName: string, moduleName: string)

  function LineOf(idx: nat, m: ModuleInfo): ModuleLine
  {
    ModuleLine(idx, m.streamId, if m.c11LinesSize >= m.c13LinesSize then m.c11LinesSize else m.c13LinesSize,
               m.objName, m.moduleName)
  }

  /** The lines printed, and the exception that ended the loop, if any. */
  datatype ModulesOut = ModulesOut(lines: seq<ModuleLine>, err: Option<Error>)

  /** MODI60 from this version on. */
  const Modi60Version: nat := 19970606

  /** Reads the module record at an offset: the record and the offset after it. */
  type ModuleReader = nat -> Result<(ModuleInfo, nat)>

  /** Every record read ends past where it started, so the loop ends. */
  ghost predicate Advances(read: ModuleReader)
  {
    forall o :: read(o).Ok? ==> read(o).value.1 > o
  }

  /** `ModuleInfo.from_bytes` on the stream, in one layout. */
  function ReaderOf(data: byteseq, modi60: bool): (read: ModuleReader)
    ensures Advances(read)
  {
    assert Advances((o: nat) => ReadModuleInfo(data, o, modi60)) by {
      forall o | ReadModuleInfo(data, o, modi60).Ok? {
        ModuleInfoAdvances(data, o, modi60);
      }
    }
    (o: nat) => ReadModuleInfo(data, o, modi60)
  }

  /** The loop from `off` on, with `acc` printed so far and `idx` the next index. */
  function ModulesFrom(read: ModuleReader, bound: nat, off: nat, idx: nat, acc: seq<ModuleLine>): ModulesOut
    requires Advances(read)
    decreases bound - off
  {
    if off >= bound then ModulesOut(acc, None)
    else
      match read(off)
      case Err(e) => ModulesOut(acc, Some(e))
      case Ok((m, next)) => ModulesFrom(read, bound, next, idx + 1, acc + [LineOf(idx, m)])
  }

  /** `parse_modules`: what it prints, and the exception it ends with, if any. */
  function Modules(data: byteseq): ModulesOut
  {
    match ReadDbiHeader(data)
    case Err(e) => ModulesOut([], Some(e))
    case Ok((hd, off)) => ModulesFrom(ReaderOf(data, hd.version >= Modi60Version), hd.moduleInfoSize, off, 1, [])
  }

  /** `parse_modules`. */
  method ParseModules(data: byteseq) returns (out: ModulesOut)
    ensures out == Modules(data)
  {
    var header := ReadDbiHeader(data);
    if header.Err? {
      return ModulesOut([], Some(header.error));
    }
    var (hd, offset) := header.value;
    var newModi := hd.version >= Modi60Version;
    ghost var read := ReaderOf(data, newModi);
    var idx := 1;
    var lines := [];
    while offset < hd.moduleInfoSize
      invariant ModulesFrom(read, hd.moduleInfoSize, header.value.1, 1, []) == ModulesFrom(read, hd.moduleInfoSize, offset, idx, lines)
      decreases hd.moduleInfoSize - offset
    {
      var m := ReadModuleInfo(data, offset, newModi);
      if m.Err? {
        return ModulesOut(lines, Some(m.error));
      }
      lines := lines + [LineOf(idx, m.value.0)];
      offset := m.value.1;
      idx := idx + 1;
    }
    return ModulesOut(lines, None);
  }

  /** The lines carry the indices `first`, `first + 1`, ... in order. */
  predicate NumberedFrom(lines: seq<ModuleLine>, first: nat)
  {
    forall k :: 0 <= k < |lines| ==> lines[k].idx == first + k
  }

  lemma NumberedAppend(lines: seq<ModuleLine>, first: nat, line: ModuleLine)
    requires NumberedFrom(lines, first) && line.idx == first + |lines|
    ensures NumberedFrom(lines + [line], first)
  {
  }

  /** The loop only appends to what was printed before it. */
  lemma {:induction false} ModulesExtend(read: ModuleReader, bound: nat, off: nat, idx: nat, acc: seq<ModuleLine>)
    requires Advances(read)
    ensures acc <= ModulesFrom(read, bound, off, idx, acc).lines
    decreases bound - off
  {
    if off < bound && read(off).Ok? {
      var (m, next) := read(off).value;
      ModulesExtend(read, bound, next, idx + 1, acc + [LineOf(idx, m)]);
    }
  }

  /** Each line the loop prints carries the next index. */
  lemma {:induction false} ModulesNumberedFrom(read: ModuleReader, bound: nat, off: nat, idx: nat, acc: seq<ModuleLine>, first: nat)
    requires Advances(read) && NumberedFrom(acc, first) && idx == first + |acc|
    ensures NumberedFrom(ModulesFrom(read, bound, off, idx, acc).lines, first)
    decreases bound - off
  {
    if off < bound && read(off).Ok? {
      var (m, next) := read(off).value;
      NumberedAppend(acc, first, LineOf(idx, m));
      ModulesNumberedFrom(read, bound, next, idx + 1, acc + [LineOf(idx, m)], first);
    }
  }

  /** `parse_modules` numbers the modules it prints 1, 2, 3, ... in the order it reads them. */
  lemma ModulesNumbered(data: byteseq)
    ensures NumberedFrom(Modules(data).lines, 1)
  {
    if ReadDbiHeader(data).Ok? {
      var (hd, off) := ReadDbiHeader(data).value;
      ModulesNumberedFrom(ReaderOf(data, hd.version >= Modi60Version), hd.moduleInfoSize, off, 1, [], 1);
    }
  }
}
