/**
 * The TPI stream of a PDB (reccmp/isledecomp/formats/pdb/tpi.py): its
 * header, the type records the module decodes, and the walk over the
 * records that either decodes each one or files its id under its type as
 * unhandled.
 *
 * Every type record starts with its 16-bit size and 16-bit leaf type; bit
 * 0x1000 of the type selects the layout with 32-bit type indices. The
 * numeric leaves and the field lists use the native-size readers of the
 * same directory, so the host is a parameter.
 */
module Tpi {
  import opened Wrappers
  import opened Bytes
  import opened StructFormat
  import opened PdbCommon
  import opened PdbCommonNative
  import opened PdbFieldList
  import CodeView
  import TpiLists

  // The header

  datatype TpiHeader = TpiHeader(version: nat, idStart: nat, idEnd: nat, size: nat, headerSize: nat)

  /** The header of MSVC 4.1, with 16-bit ids and a fixed 16-byte size. */
  const V41: nat := 19951122
  /** The header of MSVC 5 and later, which states its own size. */
  const V50: nat := 19961031

  /** `TPIHeader.from_bytes`. */
  function ReadTpiHeader(data: byteseq): (r: Result<TpiHeader>)
    ensures !CanRead(data, 0, 4) ==> r == Err(StructError)
    ensures CanRead(data, 0, 4) && U32(data, 0) != V41 && U32(data, 0) != V50 ==> r == Err(ValueError)
    ensures r.Ok? ==> CanRead(data, 0, 4) && r.value.version == U32(data, 0)
    ensures r.Ok? && r.value.version == V41 ==> r.value.headerSize == 16 && r.value.idStart < 0x1_0000 && r.value.idEnd < 0x1_0000
    ensures r.Err? && CanRead(data, 0, 4) && (U32(data, 0) == V41 || U32(data, 0) == V50) ==> r == Err(StructError)
  {
    if !CanRead(data, 0, 4) then Err(StructError)
    else if U32(data, 0) == V41 then
      var f :- Unpack([2, 2, 4], data, 4);
      Ok(TpiHeader(V41, f[0], f[1], f[2], 16))
    else if U32(data, 0) == V50 then
      var f :- Unpack([4, 4, 4, 4], data, 4);
      Ok(TpiHeader(V50, f[1], f[2], f[3], f[0]))
    else Err(ValueError)
  }

  /** A header the compiler writes: each field fits its width, and the 4.1 header is 16 bytes. */
  predicate HeaderOk(hd: TpiHeader)
  {
    && hd.idStart < Limit(if hd.version == V41 then 2 else 4)
    && hd.idEnd < Limit(if hd.version == V41 then 2 else 4)
    && hd.size < 0x1_0000_0000 && hd.headerSize < 0x1_0000_0000
    && (hd.version == V41 ==> hd.headerSize == 16)
    && (hd.version == V41 || hd.version == V50)
  }

  /** The fields after the version. */
  function BodyFormat(version: nat): seq<nat>
  {
    if version == V41 then [2, 2, 4] else [4, 4, 4, 4]
  }

  function BodyFields(hd: TpiHeader): seq<nat>
  {
    if hd.version == V41 then [hd.idStart, hd.idEnd, hd.size]
    else [hd.headerSize, hd.idStart, hd.idEnd, hd.size]
  }

  function EncodeTpiHeader(hd: TpiHeader): (b: byteseq)
    requires HeaderOk(hd)
  {
    PackU32(hd.version) + Pack(BodyFormat(hd.version), BodyFields(hd))
  }

  /** A written header reads back, whatever follows it. */
  lemma TpiHeaderRoundTrip(hd: TpiHeader, data: byteseq)
    requires HeaderOk(hd) && At(data, 0, EncodeTpiHeader(hd))
    ensures ReadTpiHeader(data) == Ok(hd)
  {
    AtSplitAt(data, 0, PackU32(hd.version), Pack(BodyFormat(hd.version), BodyFields(hd)), 4);
    U32At(data, 0, hd.version);
    UnpackPack(BodyFormat(hd.version), BodyFields(hd), data, 4);
  }

  // Records of a fixed layout, with a packed size and a name for some

  /** The type records tpi.py decodes; a size or count read as a numeric leaf stays `Numeric`. */
  datatype TypeRec =
    | Modifier(attr: nat, index: nat)
    | Pointer(attr: nat, refType: nat)
    | Array(elemType: nat, idxType: nat, count: Numeric, name: string)
    | Class(elementCount: nat, field: nat, rawPropAttr: nat, derived: nat, vshape: nat, size: Numeric, name: string)
    | Union(elementCount: nat, field: nat, prop: nat, size: Numeric, name: string)
    | Procedure(returnType: nat, callType: nat, rawAttr: nat, parmCount: nat, argList: nat)
    | MFunction(returnType: nat, classType: nat, thisType: nat, callType: nat, rawAttr: nat,
                parmCount: nat, argList: nat, thisAdjust: nat)
    | ArgList(args: seq<nat>)
    | FieldListRec(leaves: seq<Leaf>)
    | MethodList(methods: seq<TpiLists.MethodEntry>)

  /** The records read by one `unpack_from` after the 4-byte record header. */
  datatype Shape = ModifierShape | PointerShape | ArrayShape | ClassShape | UnionShape | ProcedureShape | MFunctionShape

  /** The struct format of each record, in its 32-bit (`wide`) and 16-bit layouts. */
  function Format(s: Shape, wide: bool): (ws: seq<nat>)
    ensures IsFormat(ws)
  {
    match s
    case ModifierShape => if wide then [4, 2] else [2, 2]
    case PointerShape => if wide then [4, 4] else [2, 2]
    case ArrayShape => if wide then [4, 4] else [2, 2]
    case ClassShape => if wide then [2, 2, 4, 4, 4] else [2, 2, 2, 2, 2]
    case UnionShape => if wide then [2, 2, 4] else [2, 2, 2]
    case ProcedureShape => if wide then [4, 1, 1, 2, 4] else [2, 1, 1, 2, 2]
    case MFunctionShape => if wide then [4, 4, 4, 1, 1, 2, 4, 4] else [2, 2, 2, 1, 1, 2, 2, 4]
  }

  /** LfArray, LfClass and LfUnion go on with a packed value and a length-prefixed name. */
  predicate HasTail(s: Shape) { s == ArrayShape || s == ClassShape || s == UnionShape }

  /** The record from the values in the order its layout lists them. */
  function Build(s: Shape, wide: bool, v: seq<nat>, num: Numeric, name: string): TypeRec
    requires |v| == |Format(s, wide)|
  {
    match s
    case ModifierShape => if wide then Modifier(v[1], v[0]) else Modifier(v[0], v[1])
    case PointerShape => if wide then Pointer(v[1], v[0]) else Pointer(v[0], v[1])
    case ArrayShape => Array(v[0], v[1], num, name)
    case ClassShape =>
      if wide then Class(v[0], v[2], v[1], v[3], v[4], num, name) else Class(v[0], v[1], v[2], v[3], v[4], num, name)
    case UnionShape => if wide then Union(v[0], v[2], v[1], num, name) else Union(v[0], v[1], v[2], num, name)
    case ProcedureShape => Procedure(v[0], v[1], v[2], v[3], v[4])
    case MFunctionShape => MFunction(v[0], v[1], v[2], v[3], v[4], v[5], v[6], v[7])
  }

  function ShapeOf(r: TypeRec): Option<Shape>
  {
    match r
    case Modifier(_, _) => Some(ModifierShape)
    case Pointer(_, _) => Some(PointerShape)
    case Array(_, _, _, _) => Some(ArrayShape)
    case Class(_, _, _, _, _, _, _) => Some(ClassShape)
    case Union(_, _, _, _, _) => Some(UnionShape)
    case Procedure(_, _, _, _, _) => Some(ProcedureShape)
    case MFunction(_, _, _, _, _, _, _, _) => Some(MFunctionShape)
    case _ => None
  }

  /** The fields of a record in the order its layout stores them: the inverse of `Build`. */
  function FieldsOf(r: TypeRec, wide: bool): (v: seq<nat>)
    requires ShapeOf(r).Some?
    ensures |v| == |Format(ShapeOf(r).value, wide)|
  {
    match r
    case Modifier(attr, index) => if wide then [index, attr] else [attr, index]
    case Pointer(attr, refType) => if wide then [refType, attr] else [attr, refType]
    case Array(e, i, _, _) => [e, i]
    case Class(c, f, p, d, vs, _, _) => if wide then [c, p, f, d, vs] else [c, f, p, d, vs]
    case Union(c, f, p, _, _) => if wide then [c, p, f] else [c, f, p]
    case Procedure(rt, ct, ra, pc, al) => [rt, ct, ra, pc, al]
    case MFunction(rt, cl, th, ct, ra, pc, al, ad) => [rt, cl, th, ct, ra, pc, al, ad]
  }

  /** The packed value and the name of a record that has them. */
  function TailNum(r: TypeRec): Numeric
  {
    match r
    case Array(_, _, n, _) => n
    case Class(_, _, _, _, _, n, _) => n
    case Union(_, _, _, n, _) => n
    case _ => Int(0)
  }

  function TailName(r: TypeRec): string
  {
    match r
    case Array(_, _, _, s) => s
    case Class(_, _, _, _, _, _, s) => s
    case Union(_, _, _, _, s) => s
    case _ => ""
  }

  lemma FieldsBuild(s: Shape, wide: bool, v: seq<nat>, num: Numeric, name: string)
    requires |v| == |Format(s, wide)|
    ensures ShapeOf(Build(s, wide, v, num, name)) == Some(s)
    ensures FieldsOf(Build(s, wide, v, num, name), wide) == v
    ensures HasTail(s) ==> TailNum(Build(s, wide, v, num, name)) == num && TailName(Build(s, wide, v, num, name)) == name
  {
    var r := Build(s, wide, v, num, name);
    assert FieldsOf(r, wide) == v by {
      match s
      case ModifierShape =>
      case PointerShape =>
      case ArrayShape =>
      case ClassShape =>
      case UnionShape =>
      case ProcedureShape =>
      case MFunctionShape =>
    }
  }

  lemma BuildFields(r: TypeRec, wide: bool)
    requires ShapeOf(r).Some?
    ensures Build(ShapeOf(r).value, wide, FieldsOf(r, wide), TailNum(r), TailName(r)) == r
  {}

  /**
   * The `from_bytes` of LfModifier, LfPointer, LfArray, LfClass, LfUnion,
   * LfProcedure and LfMFunction: the leaf type after the 2-byte size
   * ("<2xH") picks the layout; a name is read but its end is not returned.
   */
  function ReadShaped(h: Host, s: Shape, data: byteseq, off: nat): (r: Result<TypeRec>)
    ensures !CanRead(data, off, 4) ==> r == Err(StructError)
    ensures CanRead(data, off, 4) && !CanRead(data, off + 4, CalcSize(Format(s, Is32(U16(data, off + 2))))) ==> r == Err(StructError)
    ensures r.Ok? ==> CanRead(data, off, 4) && ShapeOf(r.value) == Some(s)
    ensures r.Ok? ==> CanRead(data, off + 4, CalcSize(Format(s, Is32(U16(data, off + 2)))))
    ensures r.Ok? ==> FieldsOf(r.value, Is32(U16(data, off + 2))) == Values(Format(s, Is32(U16(data, off + 2))), data, off + 4)
  {
    if !CanRead(data, off, 4) then Err(StructError)
    else
      var w := Is32(U16(data, off + 2));
      var v :- Unpack(Format(s, w), data, off + 4);
      if HasTail(s) then
        var n :- ReadPackedNative(h, data, off + 4 + CalcSize(Format(s, w)));
        var name :- ReadPascalString(data, n.1);
        FieldsBuild(s, w, v, n.0, name.0);
        Ok(Build(s, w, v, n.0, name.0))
      else
        FieldsBuild(s, w, v, Int(0), "");
        Ok(Build(s, w, v, Int(0), ""))
  }

  /** A record the compiler can write in the given layout. */
  predicate Writable(r: TypeRec, wide: bool)
  {
    && ShapeOf(r).Some?
    && Fits(Format(ShapeOf(r).value, wide), FieldsOf(r, wide))
    && (HasTail(ShapeOf(r).value) ==> NumRange(TailNum(r)) && NameOk(TailName(r)))
  }

  /** The packed value and the name, for the records that have them. */
  function EncodeTail(r: TypeRec): (b: seq<int>)
    requires ShapeOf(r).Some? && (HasTail(ShapeOf(r).value) ==> NumRange(TailNum(r)) && NameOk(TailName(r)))
  {
    if HasTail(ShapeOf(r).value) then EncodeNumeric(TailNum(r).i) + EncodePascal(TailName(r)) else []
  }

  /** The bytes after the record header. */
  function EncodeShaped(r: TypeRec, wide: bool): (b: seq<int>)
    requires Writable(r, wide)
  {
    Pack(Format(ShapeOf(r).value, wide), FieldsOf(r, wide)) + EncodeTail(r)
  }

  lemma TailReads(h: Host, data: byteseq, k1: nat, num: Numeric, name: string, k2: nat)
    requires NumOk(h, num) && NameOk(name) && k2 == k1 + |EncodeNumeric(num.i)|
    requires At(data, k1, EncodeNumeric(num.i) + EncodePascal(name))
    ensures ReadPackedNative(h, data, k1) == Ok((num, k2))
    ensures ReadPascalString(data, k2) == Ok((name, k2 + 1 + |name|))
  {
    AtSplitAt(data, k1, EncodeNumeric(num.i), EncodePascal(name), k2);
    PackedAt(h, data, k1, num.i);
    PascalAt(data, k2, name);
  }

  /** `ReadShaped` from what each of its reads gives. */
  lemma ShapedReads(h: Host, s: Shape, data: byteseq, off: nat, w: bool, v: seq<nat>, k1: nat, num: Numeric, k2: nat, name: string)
    requires CanRead(data, off, 4) && w == Is32(U16(data, off + 2))
    requires Unpack(Format(s, w), data, off + 4) == Ok(v) && k1 == off + 4 + CalcSize(Format(s, w))
    requires HasTail(s) ==> ReadPackedNative(h, data, k1) == Ok((num, k2)) && ReadPascalString(data, k2).Ok?
    requires HasTail(s) ==> ReadPascalString(data, k2).value.0 == name
    requires !HasTail(s) ==> num == Int(0) && name == ""
    ensures ReadShaped(h, s, data, off) == Ok(Build(s, w, v, num, name))
  {}

  /** The reads of packed fields followed, when `tail`, by a packed value and a name. */
  lemma ReadsOfPacked(h: Host, data: byteseq, off: nat, ws: seq<nat>, fs: seq<nat>, rest: seq<int>,
                      tail: bool, num: Numeric, name: string, k1: nat, k2: nat)
    requires IsFormat(ws) && Fits(ws, fs) && At(data, off, Pack(ws, fs) + rest) && k1 == off + CalcSize(ws)
    requires tail ==> NumOk(h, num) && NameOk(name) && rest == EncodeNumeric(num.i) + EncodePascal(name)
    requires tail ==> k2 == k1 + |EncodeNumeric(num.i)|
    ensures Unpack(ws, data, off) == Ok(fs)
    ensures tail ==> ReadPackedNative(h, data, k1) == Ok((num, k2))
    ensures tail ==> ReadPascalString(data, k2) == Ok((name, k2 + 1 + |name|))
  {
    AtSplitAt(data, off, Pack(ws, fs), rest, k1);
    UnpackPack(ws, fs, data, off);
    if tail {
      TailReads(h, data, k1, num, name, k2);
    }
  }

  /** Packed fields of a layout, and the tail it has, read back as the record they build. */
  lemma PackedShapeReads(h: Host, data: byteseq, off: nat, s: Shape, w: bool, fs: seq<nat>,
                         num: Numeric, name: string, rest: seq<int>)
    requires CanRead(data, off, 4) && w == Is32(U16(data, off + 2))
    requires IsFormat(Format(s, w)) && Fits(Format(s, w), fs)
    requires HasTail(s) ==> NumOk(h, num) && NameOk(name) && rest == EncodeNumeric(num.i) + EncodePascal(name)
    requires !HasTail(s) ==> num == Int(0) && name == ""
    requires At(data, off + 4, Pack(Format(s, w), fs) + rest)
    ensures ReadShaped(h, s, data, off) == Ok(Build(s, w, fs, num, name))
  {
    var k1 := off + 4 + CalcSize(Format(s, w));
    var k2 := if HasTail(s) then k1 + |EncodeNumeric(num.i)| else 0;
    ReadsOfPacked(h, data, off + 4, Format(s, w), fs, rest, HasTail(s), num, name, k1, k2);
    ShapedReads(h, s, data, off, w, fs, k1, num, k2, name);
  }

  /** A written record reads back under a header that names a type of the same layout. */
  lemma ShapedRoundTrip(h: Host, data: byteseq, off: nat, r: TypeRec)
    requires CanRead(data, off, 4) && Writable(r, Is32(U16(data, off + 2)))
    requires HasTail(ShapeOf(r).value) ==> NumOk(h, TailNum(r))
    requires At(data, off + 4, EncodeShaped(r, Is32(U16(data, off + 2))))
    ensures ReadShaped(h, ShapeOf(r).value, data, off) == Ok(r)
  {
    var w := Is32(U16(data, off + 2));
    PackedShapeReads(h, data, off, ShapeOf(r).value, w, FieldsOf(r, w), TailNum(r), TailName(r), EncodeTail(r));
    BuildFields(r, w);
  }

  /** The 16-bit LF_ARRAY of tests/test_pdb_types.py, with an empty name and a pad byte after it. */
  lemma ArraySample(h: Host)
    ensures ReadShaped(h, ArrayShape, [0x0a, 0x00, 0x03, 0x00, 0xbe, 0x78, 0x11, 0x00, 0x90, 0x00, 0x00, 0xf1], 0)
         == Ok(Array(0x78BE, 0x11, Int(144), ""))
  {
    var data: byteseq := [0x0a, 0x00, 0x03, 0x00, 0xbe, 0x78, 0x11, 0x00, 0x90, 0x00, 0x00, 0xf1];
    var r := Array(0x78BE, 0x11, Int(144), "");
    assert U16(data, 2) == 3 && !Is32(3);
    assert Pack([2, 2], [0x78BE, 0x11]) == PackU16(0x78BE) + PackU16(0x11);
    assert EncodeShaped(r, false) == PackU16(0x78BE) + PackU16(0x11) + PackU16(144) + [0];
    assert data[4..11] == EncodeShaped(r, false);
    ShapedRoundTrip(h, data, 0, r);
  }

  // The walk over the records

  /** The leaf types parse_types decodes; any other is filed as unhandled. */
  predicate Handled(t: int)
  {
    t in {1, 0x1001, 2, 0x1002, 3, 0x1003, 4, 5, 0x1004, 0x1005, 6, 0x1006, 8, 0x1008, 9, 0x1009,
          0x201, 0x1201, 0x204, 0x1203, 0x207, 0x1206}
  }

  /** The records read by one `unpack_from`, by their leaf type in either layout. */
  function ShapeFor(t: int): Option<Shape>
  {
    if t == 1 || t == 0x1001 then Some(ModifierShape)
    else if t == 2 || t == 0x1002 then Some(PointerShape)
    else if t == 3 || t == 0x1003 then Some(ArrayShape)
    else if t == 4 || t == 5 || t == 0x1004 || t == 0x1005 then Some(ClassShape)
    else if t == 6 || t == 0x1006 then Some(UnionShape)
    else if t == 8 || t == 0x1008 then Some(ProcedureShape)
    else if t == 9 || t == 0x1009 then Some(MFunctionShape)
    else None
  }

  /**
   * The `match record.type` of parse_types: the record decoded by the
   * reader its type selects, `None` for a type it files as unhandled, or
   * the exception of the reader, which parse_types re-raises.
   */
  function DecodeRecord(h: Host, leaves: byteseq, rec: CodeView.CvRecord): (r: Result<Option<TypeRec>>)
    ensures r == Ok(None) <==> !Handled(rec.recType)
    ensures !CanRead(leaves, rec.offset, 4) && Handled(rec.recType) ==> r == Err(StructError)
    ensures r.Ok? && r.value.Some? && ShapeFor(rec.recType).Some? ==> ShapeOf(r.value.value) == ShapeFor(rec.recType)
  {
    var t := rec.recType;
    match ShapeFor(t)
    case Some(s) =>
      var x :- ReadShaped(h, s, leaves, rec.offset);
      Ok(Some(x))
    case None =>
      if t == 0x201 || t == 0x1201 then
        var a :- TpiLists.ReadArgListAsWritten(leaves, rec.offset);
        Ok(Some(ArgList(a)))
      else if t == 0x204 || t == 0x1203 then
        var l :- FieldList(h, leaves, rec.offset);
        Ok(Some(FieldListRec(l)))
      else if t == 0x207 || t == 0x1206 then
        var m :- TpiLists.ReadMethodListAsWritten(leaves, rec.offset);
        Ok(Some(MethodList(m)))
      else Ok(None)
  }

  /**
   * What parse_types prints: each decoded record with its type id, and for
   * each unhandled leaf type the set of ids of its records.
   */
  datatype TypesOut = TypesOut(decoded: seq<(nat, TypeRec)>, unhandled: map<int, set<nat>>)

  /** One turn of the loop: print the record, or file its id under its type. */
  function Note(acc: TypesOut, id: nat, t: int, d: Option<TypeRec>): TypesOut
  {
    match d
    case Some(x) => acc.(decoded := acc.decoded + [(id, x)])
    case None => acc.(unhandled := acc.unhandled[t := (if t in acc.unhandled then acc.unhandled[t] else {}) + {id}])
  }

  /** The body of the loop's `try`, as a value: what becomes of one record. */
  type Decoder = CodeView.CvRecord -> Result<Option<TypeRec>>

  function Decode(h: Host, leaves: byteseq): Decoder
  {
    rec => DecodeRecord(h, leaves, rec)
  }

  const NoTypes := TypesOut([], map[])

  /** The loop from record `j` on, the record at index `j` having id `start + j`. */
  function RecordsFrom(dec: Decoder, recs: seq<CodeView.CvRecord>, start: nat, j: nat, acc: TypesOut): (r: Result<TypesOut>)
    requires j <= |recs|
    ensures r.Ok? <==> forall i :: j <= i < |recs| ==> dec(recs[i]).Ok?
    decreases |recs| - j
  {
    if j == |recs| then Ok(acc)
    else
      var d :- dec(recs[j]);
      RecordsFrom(dec, recs, start, j + 1, Note(acc, start + j, recs[j].recType, d))
  }

  /** `data[header.header_size:][:header.size]`. */
  function LeavesOf(data: byteseq, hd: TpiHeader): byteseq
  {
    Slice(data, hd.headerSize, hd.headerSize + hd.size)
  }

  /**
   * `parse_types`: the records are walked lazily, so a record that fails
   * to decode raises before the walk reaches a header it cannot read.
   */
  function Types(h: Host, data: byteseq): (r: Result<TypesOut>)
    ensures ReadTpiHeader(data).Err? ==> r == Err(ReadTpiHeader(data).error)
    ensures r.Ok? ==>
      && ReadTpiHeader(data).Ok?
      && CodeView.Walk(LeavesOf(data, ReadTpiHeader(data).value), true, 0).err.None?
  {
    var hd :- ReadTpiHeader(data);
    var leaves := LeavesOf(data, hd);
    var w := CodeView.Walk(leaves, true, 0);
    var out :- RecordsFrom(Decode(h, leaves), w.recs, hd.idStart, 0, NoTypes);
    if w.err.Some? then Err(w.err.value) else Ok(out)
  }

  // What the loop files where

  /** The ids of the records before index `j` of a type the loop decodes. */
  ghost function HandledIds(recs: seq<CodeView.CvRecord>, start: nat, j: nat): set<nat>
    requires j <= |recs|
  {
    set i | 0 <= i < j && Handled(recs[i].recType) :: start + i
  }

  /** The types of the records before index `j` that the loop does not decode. */
  ghost function UnhandledTypes(recs: seq<CodeView.CvRecord>, j: nat): set<int>
    requires j <= |recs|
  {
    set i | 0 <= i < j && !Handled(recs[i].recType) :: recs[i].recType
  }

  /** The ids of the records of type `t` before index `j`. */
  ghost function IdsOfType(recs: seq<CodeView.CvRecord>, start: nat, j: nat, t: int): set<nat>
    requires j <= |recs|
  {
    set i | 0 <= i < j && recs[i].recType == t :: start + i
  }

  ghost function DecodedIds(acc: TypesOut): set<nat>
  {
    set k | 0 <= k < |acc.decoded| :: acc.decoded[k].0
  }

  /** The printed records are the decoded ones, in order, each with what decoding it gave. */
  ghost predicate DecodedFaithful(dec: Decoder, recs: seq<CodeView.CvRecord>, start: nat, j: nat, acc: TypesOut)
    requires j <= |recs|
  {
    && (forall k :: 0 <= k < |acc.decoded| ==>
          start <= acc.decoded[k].0 < start + j && dec(recs[acc.decoded[k].0 - start]) == Ok(Some(acc.decoded[k].1)))
    && (forall k1, k2 :: 0 <= k1 < k2 < |acc.decoded| ==> acc.decoded[k1].0 < acc.decoded[k2].0)
    && DecodedIds(acc) == HandledIds(recs, start, j)
  }

  /** Each unhandled type maps to the ids of all the records of that type. */
  ghost predicate UnhandledFaithful(recs: seq<CodeView.CvRecord>, start: nat, j: nat, acc: TypesOut)
    requires j <= |recs|
  {
    && acc.unhandled.Keys == UnhandledTypes(recs, j)
    && forall t :: t in acc.unhandled ==> acc.unhandled[t] == IdsOfType(recs, start, j, t)
  }

  /** The decoder leaves exactly the types parse_types does not match unhandled. */
  ghost predicate Classifies(dec: Decoder, recs: seq<CodeView.CvRecord>)
  {
    forall i :: 0 <= i < |recs| ==> (dec(recs[i]) == Ok(None) <==> !Handled(recs[i].recType))
  }

  lemma DecodeClassifies(h: Host, leaves: byteseq, recs: seq<CodeView.CvRecord>)
    ensures Classifies(Decode(h, leaves), recs)
  {
    forall i | 0 <= i < |recs|
      ensures Decode(h, leaves)(recs[i]) == Ok(None) <==> !Handled(recs[i].recType)
    {
      assert Decode(h, leaves)(recs[i]) == DecodeRecord(h, leaves, recs[i]);
    }
  }

  lemma HandledIdsStep(recs: seq<CodeView.CvRecord>, start: nat, j: nat)
    requires j < |recs|
    ensures HandledIds(recs, start, j + 1) == HandledIds(recs, start, j) + (if Handled(recs[j].recType) then {start + j} else {})
  {
    var hs, hs' := HandledIds(recs, start, j), HandledIds(recs, start, j + 1);
    forall x | x in hs'
      ensures x in hs + (if Handled(recs[j].recType) then {start + j} else {})
    {
      var i :| 0 <= i < j + 1 && Handled(recs[i].recType) && x == start + i;
    }
  }

  lemma DecodedIdsAppend(acc: TypesOut, id: nat, x: TypeRec)
    ensures DecodedIds(acc.(decoded := acc.decoded + [(id, x)])) == DecodedIds(acc) + {id}
  {
    var ds := acc.decoded + [(id, x)];
    var acc' := acc.(decoded := ds);
    forall y | y in DecodedIds(acc')
      ensures y in DecodedIds(acc) + {id}
    {
      var k :| 0 <= k < |ds| && ds[k].0 == y;
      if k < |acc.decoded| {
        assert acc.decoded[k].0 == y;
      }
    }
    forall y | y in DecodedIds(acc)
      ensures y in DecodedIds(acc')
    {
      var k :| 0 <= k < |acc.decoded| && acc.decoded[k].0 == y;
      assert ds[k].0 == y;
    }
    assert ds[|acc.decoded|].0 == id;
  }

  lemma DecodedStep(dec: Decoder, recs: seq<CodeView.CvRecord>, start: nat, j: nat, acc: TypesOut)
    requires j < |recs| && Classifies(dec, recs) && dec(recs[j]).Ok? && DecodedFaithful(dec, recs, start, j, acc)
    ensures DecodedFaithful(dec, recs, start, j + 1, Note(acc, start + j, recs[j].recType, dec(recs[j]).value))
  {
    var d := dec(recs[j]).value;
    HandledIdsStep(recs, start, j);
    if d.Some? {
      DecodedIdsAppend(acc, start + j, d.value);
    }
  }

  lemma UnhandledStep(dec: Decoder, recs: seq<CodeView.CvRecord>, start: nat, j: nat, acc: TypesOut)
    requires j < |recs| && Classifies(dec, recs) && dec(recs[j]).Ok? && UnhandledFaithful(recs, start, j, acc)
    ensures UnhandledFaithful(recs, start, j + 1, Note(acc, start + j, recs[j].recType, dec(recs[j]).value))
  {
    var d := dec(recs[j]).value;
    var t := recs[j].recType;
    var acc' := Note(acc, start + j, t, d);
    var us := UnhandledTypes(recs, j);
    var us' := UnhandledTypes(recs, j + 1);
    if d.Some? {
      assert Handled(t);
      assert us' == us by {
        forall x ensures x in us' <==> x in us {
          if x in us' {
            var i :| 0 <= i < j + 1 && !Handled(recs[i].recType) && x == recs[i].recType;
          }
        }
      }
      forall u | u in acc'.unhandled
        ensures acc'.unhandled[u] == IdsOfType(recs, start, j + 1, u)
      {
        assert u in us && u != t;
        assert IdsOfType(recs, start, j + 1, u) == IdsOfType(recs, start, j, u) by {
          forall x ensures x in IdsOfType(recs, start, j + 1, u) <==> x in IdsOfType(recs, start, j, u) {
            if x in IdsOfType(recs, start, j + 1, u) {
              var i :| 0 <= i < j + 1 && recs[i].recType == u && x == start + i;
            }
          }
        }
      }
    } else {
      assert !Handled(t);
      assert us' == us + {t} by {
        forall x ensures x in us' <==> x in us + {t} {
          if x in us' {
            var i :| 0 <= i < j + 1 && !Handled(recs[i].recType) && x == recs[i].recType;
          }
        }
      }
      forall u | u in acc'.unhandled
        ensures acc'.unhandled[u] == IdsOfType(recs, start, j + 1, u)
      {
        var old' := IdsOfType(recs, start, j, u);
        var new' := IdsOfType(recs, start, j + 1, u);
        assert new' == old' + (if u == t then {start + j} else {}) by {
          forall x ensures x in new' <==> x in old' + (if u == t then {start + j} else {}) {
            if x in new' {
              var i :| 0 <= i < j + 1 && recs[i].recType == u && x == start + i;
            }
          }
        }
        if u == t && t !in acc.unhandled {
          forall i | 0 <= i < j && !Handled(recs[i].recType)
            ensures recs[i].recType in us
          {
          }
          assert old' == {};
        }
      }
    }
  }

  /** Every record before the end decoded without an exception, and the loop filed each one. */
  lemma {:induction false} RecordsFaithful(dec: Decoder, recs: seq<CodeView.CvRecord>, start: nat, j: nat, acc: TypesOut, out: TypesOut)
    requires j <= |recs| && Classifies(dec, recs) && RecordsFrom(dec, recs, start, j, acc) == Ok(out)
    requires DecodedFaithful(dec, recs, start, j, acc) && UnhandledFaithful(recs, start, j, acc)
    ensures forall i :: j <= i < |recs| ==> dec(recs[i]).Ok?
    ensures DecodedFaithful(dec, recs, start, |recs|, out) && UnhandledFaithful(recs, start, |recs|, out)
    decreases |recs| - j
  {
    if j < |recs| {
      var d := dec(recs[j]).value;
      DecodedStep(dec, recs, start, j, acc);
      UnhandledStep(dec, recs, start, j, acc);
      RecordsFaithful(dec, recs, start, j + 1, Note(acc, start + j, recs[j].recType, d), out);
    }
  }

  /** A loop that raises raises the exception of the first record that fails to decode. */
  lemma {:induction false} RecordsFail(dec: Decoder, recs: seq<CodeView.CvRecord>, start: nat, j: nat, acc: TypesOut, e: Error)
    requires j <= |recs| && RecordsFrom(dec, recs, start, j, acc) == Err(e)
    ensures exists i :: j <= i < |recs| && dec(recs[i]) == Err(e) && forall i' :: j <= i' < i ==> dec(recs[i']).Ok?
    decreases |recs| - j
  {
    if dec(recs[j]).Ok? {
      RecordsFail(dec, recs, start, j + 1, Note(acc, start + j, recs[j].recType, dec(recs[j]).value), e);
      var i :| j + 1 <= i < |recs| && dec(recs[i]) == Err(e) && forall i' :: j + 1 <= i' < i ==> dec(recs[i']).Ok?;
      assert forall i' :: j <= i' < i ==> dec(recs[i']).Ok?;
    }
  }

  /**
   * What parse_types prints when it returns: every walked record decoded,
   * the decoded ones listed in id order with their values, and each
   * unhandled type with the ids of all its records.
   */
  lemma TypesFaithful(h: Host, data: byteseq, hd: TpiHeader, recs: seq<CodeView.CvRecord>, out: TypesOut)
    requires ReadTpiHeader(data) == Ok(hd) && recs == CodeView.Walk(LeavesOf(data, hd), true, 0).recs
    requires Types(h, data) == Ok(out)
    ensures CodeView.Walk(LeavesOf(data, hd), true, 0).err == None
    ensures forall i :: 0 <= i < |recs| ==> DecodeRecord(h, LeavesOf(data, hd), recs[i]).Ok?
    ensures DecodedFaithful(Decode(h, LeavesOf(data, hd)), recs, hd.idStart, |recs|, out)
    ensures UnhandledFaithful(recs, hd.idStart, |recs|, out)
  {
    var dec := Decode(h, LeavesOf(data, hd));
    DecodeClassifies(h, LeavesOf(data, hd), recs);
    assert HandledIds(recs, hd.idStart, 0) == {};
    assert UnhandledTypes(recs, 0) == {};
    RecordsFaithful(dec, recs, hd.idStart, 0, NoTypes, out);
    forall i | 0 <= i < |recs|
      ensures DecodeRecord(h, LeavesOf(data, hd), recs[i]).Ok?
    {
      assert dec(recs[i]) == DecodeRecord(h, LeavesOf(data, hd), recs[i]);
    }
  }

  /**
   * An exception from parse_types is the header's, or that of the first
   * record that fails to decode, or, when every record decodes, the walk's.
   */
  lemma TypesFail(h: Host, data: byteseq, hd: TpiHeader, recs: seq<CodeView.CvRecord>, e: Error)
    requires ReadTpiHeader(data) == Ok(hd) && recs == CodeView.Walk(LeavesOf(data, hd), true, 0).recs
    requires Types(h, data) == Err(e)
    ensures || (exists i :: 0 <= i < |recs| && DecodeRecord(h, LeavesOf(data, hd), recs[i]) == Err(e)
                  && forall i' :: 0 <= i' < i ==> DecodeRecord(h, LeavesOf(data, hd), recs[i']).Ok?)
            || ((forall i :: 0 <= i < |recs| ==> DecodeRecord(h, LeavesOf(data, hd), recs[i]).Ok?)
                  && CodeView.Walk(LeavesOf(data, hd), true, 0).err == Some(e))
  {
    var leaves := LeavesOf(data, hd);
    var dec := Decode(h, leaves);
    assert forall r :: dec(r) == DecodeRecord(h, leaves, r);
    var res := RecordsFrom(dec, recs, hd.idStart, 0, NoTypes);
    if res.Err? {
      RecordsFail(dec, recs, hd.idStart, 0, NoTypes, e);
    } else {
      DecodeClassifies(h, leaves, recs);
      assert HandledIds(recs, hd.idStart, 0) == {};
      assert UnhandledTypes(recs, 0) == {};
      RecordsFaithful(dec, recs, hd.idStart, 0, NoTypes, res.value);
    }
  }

  /** The `for` loop of parse_types, the first exception of a record ending it. */
  method DecodeAll(dec: Decoder, recs: seq<CodeView.CvRecord>, start: nat) returns (r: Result<TypesOut>)
    ensures r == RecordsFrom(dec, recs, start, 0, NoTypes)
  {
    var acc := NoTypes;
    var j := 0;
    while j < |recs|
      invariant j <= |recs|
      invariant RecordsFrom(dec, recs, start, 0, NoTypes) == RecordsFrom(dec, recs, start, j, acc)
      decreases |recs| - j
    {
      var d := dec(recs[j]);
      if d.Err? {
        return Err(d.error);
      }
      acc := Note(acc, start + j, recs[j].recType, d.value);
      j := j + 1;
    }
    return Ok(acc);
  }

  /** `parse_types`: read the header, walk the records it bounds, decode each. */
  method ParseTypes(h: Host, data: byteseq) returns (r: Result<TypesOut>)
    ensures r == Types(h, data)
  {
    var header := ReadTpiHeader(data);
    if header.Err? {
      return Err(header.error);
    }
    var hd := header.value;
    var leaves := LeavesOf(data, hd);
    var recs, err := CodeView.FromBytes(leaves, true);
    r := DecodeAll(Decode(h, leaves), recs, hd.idStart);
    if r.Ok? && err.Some? {
      r := Err(err.value);
    }
  }
}
