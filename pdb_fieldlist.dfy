/**
 * The members of an LF_FIELDLIST type record in the TPI stream of a PDB
 * (reccmp/isledecomp/formats/pdb/fieldlist.py): base classes, enumerators,
 * data members, methods, nested types and virtual-table pointers.
 *
 * Every leaf starts with its 16-bit leaf type; bit 0x1000 of the type
 * selects the layout with 32-bit type indices. Each reader takes the
 * buffer and the offset of that type and gives the leaf with the offset
 * just past it; a read that runs off the end is the `struct.error` the
 * source raises. Numeric leaves use the native-size reader of the same
 * directory, so the host is a parameter.
 */
module PdbFieldList {
  import opened Wrappers
  import opened Bytes
  import opened TextCodec
  import opened PdbCommon
  import opened PdbCommonNative

  /** CV_fldattr_t: the access level (bits 0-1) and the method property (bits 2-4). */
  datatype FieldAttr = FieldAttr(access: nat, mprop: nat)

  /** MethodProp.INTRODUCING_VIRTUAL (4) and MethodProp.PURE_INTRO (6): the methods that carry a vbaseoff. */
  predicate IntroducesVirtual(a: FieldAttr) { a.mprop == 4 || a.mprop == 6 }

  /** `FieldAttr.from_bytes`: a 16-bit word of which only the low five bits are kept. */
  function ReadAttr(data: byteseq, off: nat): (r: Result<(FieldAttr, nat)>)
    ensures r.Ok? <==> CanRead(data, off, 2)
    ensures !r.Ok? ==> r == Err(StructError)
    ensures r.Ok? ==> r.value.1 == off + 2 && r.value.0.access < 4 && r.value.0.mprop < 8
    ensures r.Ok? ==> r.value.0.access + 4 * r.value.0.mprop == U16(data, off) % 32
  {
    if !CanRead(data, off, 2) then Err(StructError)
    else
      var raw := U16(data, off);
      LowFiveBits(raw);
      Ok((FieldAttr(raw % 4, (raw / 4) % 8), off + 2))
  }

  /** The two fields of the attribute are the five low bits of the word. */
  lemma LowFiveBits(raw: nat)
    ensures raw % 4 + 4 * ((raw / 4) % 8) == raw % 32
  {
    var q := raw / 4;
    assert raw == 4 * q + raw % 4;
    assert q == 8 * (q / 8) + q % 8;
    assert raw == 32 * (q / 8) + (4 * (q % 8) + raw % 4);
    MultipleMod(q / 8, 32);
  }

  /** The leaf type selects the layout with 32-bit type indices (bit 12). */
  predicate Is32(leafType: nat) { (leafType / 0x1000) % 2 == 1 }

  /** An unsigned index of 16 or 32 bits. */
  function ReadIndex(wide: bool, data: byteseq, off: nat): (r: Result<(nat, nat)>)
    ensures r.Ok? <==> CanRead(data, off, if wide then 4 else 2)
    ensures !r.Ok? ==> r == Err(StructError)
    ensures r.Ok? ==> r.value.1 == off + (if wide then 4 else 2)
  {
    if wide then
      if CanRead(data, off, 4) then Ok((U32(data, off), off + 4)) else Err(StructError)
    else
      if CanRead(data, off, 2) then Ok((U16(data, off), off + 2)) else Err(StructError)
  }

  /**
   * The type index and the attribute of a base-class, member or static
   * member leaf: the attribute comes first in the 32-bit layout and the
   * index first in the 16-bit one.
   */
  function IndexAndAttr(wide: bool, data: byteseq, off: nat): (r: Result<(nat, FieldAttr, nat)>)
    ensures r.Ok? <==> CanRead(data, off, if wide then 6 else 4)
    ensures !r.Ok? ==> r == Err(StructError)
    ensures r.Ok? ==> r.value.2 == off + (if wide then 6 else 4)
  {
    if wide then
      var a :- ReadAttr(data, off);
      var i :- ReadIndex(true, data, off + 2);
      Ok((i.0, a.0, i.1))
    else
      var i :- ReadIndex(false, data, off);
      var a :- ReadAttr(data, off + 2);
      Ok((i.0, a.0, a.1))
  }

  /** The leaves of a field list. Every one keeps the leaf type it was read with. */
  datatype Leaf =
    | LfBClass(leafType: nat, index: nat, attr: FieldAttr, baseOffset: Numeric)
    | LfVBClass(leafType: nat, index: nat, attr: FieldAttr, vbptr: nat, vbpoff: Numeric, vbind: Numeric)
    | LfEnumerate(leafType: nat, attr: FieldAttr, value: Numeric, name: string)
    | LfMember(leafType: nat, index: nat, attr: FieldAttr, fieldOffset: Numeric, name: string)
    | LfStaticMember(leafType: nat, index: nat, attr: FieldAttr, name: string)
    | LfMethod(leafType: nat, count: nat, index: nat, name: string)
    | LfNestType(leafType: nat, index: nat, name: string)
    | LfVFuncTab(leafType: nat, index: nat)
    | LfOneMethod(leafType: nat, attr: FieldAttr, index: nat, vbaseoff: nat, name: string)

  datatype Kind = BClass | VBClass | Enumerate | Member | StaticMember | Method | NestType | VFuncTab | OneMethod

  function KindOfLeaf(l: Leaf): Kind
  {
    match l
    case LfBClass(_, _, _, _) => BClass
    case LfVBClass(_, _, _, _, _, _) => VBClass
    case LfEnumerate(_, _, _, _) => Enumerate
    case LfMember(_, _, _, _, _) => Member
    case LfStaticMember(_, _, _, _) => StaticMember
    case LfMethod(_, _, _, _) => Method
    case LfNestType(_, _, _) => NestType
    case LfVFuncTab(_, _) => VFuncTab
    case LfOneMethod(_, _, _, _, _) => OneMethod
  }

  /** The `match` of `LfFieldList.from_bytes`: the 16-bit and the 32-bit code of each leaf; any other code ends the list. */
  function KindOf(t: int): (k: Option<Kind>)
    ensures k.Some? ==> t % 0x100 <= 0x0C
  {
    if t == 0x400 || t == 0x1400 then Some(BClass)
    else if t == 0x401 || t == 0x402 || t == 0x1401 || t == 0x1402 then Some(VBClass)
    else if t == 0x403 || t == 0x1502 then Some(Enumerate)
    else if t == 0x406 || t == 0x1405 then Some(Member)
    else if t == 0x407 || t == 0x1406 then Some(StaticMember)
    else if t == 0x408 || t == 0x1407 then Some(Method)
    else if t == 0x409 || t == 0x1408 then Some(NestType)
    else if t == 0x40A || t == 0x1409 then Some(VFuncTab)
    else if t == 0x40C || t == 0x140B then Some(OneMethod)
    else None
  }

  /** `LfBClass.from_bytes`. */
  function ReadBClass(h: Host, data: byteseq, off: nat): (r: Result<(Leaf, nat)>)
    ensures r.Ok? ==> r.value.0.LfBClass? && CanRead(data, off, 2) && r.value.0.leafType == U16(data, off) && r.value.1 >= off + 6
  {
    if !CanRead(data, off, 2) then Err(StructError)
    else
      var t := U16(data, off);
      var ia :- IndexAndAttr(Is32(t), data, off + 2);
      var b :- ReadPackedNative(h, data, ia.2);
      Ok((LfBClass(t, ia.0, ia.1, b.0), b.1))
  }

  /** The indices and the attribute of a virtual base class: "<2I" after the attribute, or "<2H" before it. */
  function VBHead(wide: bool, data: byteseq, off: nat): (r: Result<(nat, nat, FieldAttr, nat)>)
    ensures r.Ok? <==> CanRead(data, off, if wide then 10 else 6)
    ensures !r.Ok? ==> r == Err(StructError)
    ensures r.Ok? ==> r.value.3 == off + (if wide then 10 else 6)
  {
    if wide then
      var a :- ReadAttr(data, off);
      var i :- ReadIndex(true, data, off + 2);
      var p :- ReadIndex(true, data, off + 6);
      Ok((i.0, p.0, a.0, p.1))
    else
      var i :- ReadIndex(false, data, off);
      var p :- ReadIndex(false, data, off + 2);
      var a :- ReadAttr(data, off + 4);
      Ok((i.0, p.0, a.0, a.1))
  }

  /** `LfVBClass.from_bytes`: the two packed values follow the fixed part. */
  function ReadVBClass(h: Host, data: byteseq, off: nat): (r: Result<(Leaf, nat)>)
    ensures r.Ok? ==> r.value.0.LfVBClass? && CanRead(data, off, 2) && r.value.0.leafType == U16(data, off) && r.value.1 >= off + 12
  {
    if !CanRead(data, off, 2) then Err(StructError)
    else
      var t := U16(data, off);
      var hd :- VBHead(Is32(t), data, off + 2);
      var p :- ReadPackedNative(h, data, hd.3);
      var v :- ReadPackedNative(h, data, p.1);
      Ok((LfVBClass(t, hd.0, hd.2, hd.1, p.0, v.0), v.1))
  }

  /** `LfEnumerate.from_bytes`: the same layout for either leaf type, with a length-prefixed name. */
  function ReadEnumerate(h: Host, data: byteseq, off: nat): (r: Result<(Leaf, nat)>)
    ensures r.Ok? ==> r.value.0.LfEnumerate? && CanRead(data, off, 2) && r.value.0.leafType == U16(data, off) && r.value.1 >= off + 7
  {
    if !CanRead(data, off, 2) then Err(StructError)
    else
      var t := U16(data, off);
      var a :- ReadAttr(data, off + 2);
      var v :- ReadPackedNative(h, data, a.1);
      var n :- ReadPascalString(data, v.1);
      Ok((LfEnumerate(t, a.0, v.0, n.0), n.1))
  }

  /** `LfMember.from_bytes`. */
  function ReadMember(h: Host, data: byteseq, off: nat): (r: Result<(Leaf, nat)>)
    ensures r.Ok? ==> r.value.0.LfMember? && CanRead(data, off, 2) && r.value.0.leafType == U16(data, off) && r.value.1 >= off + 9
  {
    if !CanRead(data, off, 2) then Err(StructError)
    else
      var t := U16(data, off);
      var ia :- IndexAndAttr(Is32(t), data, off + 2);
      var f :- ReadPackedNative(h, data, ia.2);
      var n :- ReadPascalString(data, f.1);
      Ok((LfMember(t, ia.0, ia.1, f.0, n.0), n.1))
  }

  /** `LfStaticMember.from_bytes`. */
  function ReadStaticMember(data: byteseq, off: nat): (r: Result<(Leaf, nat)>)
    ensures r.Ok? ==> r.value.0.LfStaticMember? && CanRead(data, off, 2) && r.value.0.leafType == U16(data, off) && r.value.1 >= off + 7
  {
    if !CanRead(data, off, 2) then Err(StructError)
    else
      var t := U16(data, off);
      var ia :- IndexAndAttr(Is32(t), data, off + 2);
      var n :- ReadPascalString(data, ia.2);
      Ok((LfStaticMember(t, ia.0, ia.1, n.0), n.1))
  }

  /** `LfMethod.from_bytes`: a 16-bit count, then a 32-bit ("<HI") or 16-bit ("<2H") index. */
  function ReadMethod(data: byteseq, off: nat): (r: Result<(Leaf, nat)>)
    ensures r.Ok? ==> r.value.0.LfMethod? && CanRead(data, off, 2) && r.value.0.leafType == U16(data, off) && r.value.1 >= off + 7
  {
    if !CanRead(data, off, 2) then Err(StructError)
    else
      var t := U16(data, off);
      var c :- ReadIndex(false, data, off + 2);
      var i :- ReadIndex(Is32(t), data, c.1);
      var n :- ReadPascalString(data, i.1);
      Ok((LfMethod(t, c.0, i.0, n.0), n.1))
  }

  /** `LfNestType.from_bytes`: the 32-bit layout ("<2xI") skips two pad bytes before the index. */
  function ReadNestType(data: byteseq, off: nat): (r: Result<(Leaf, nat)>)
    ensures r.Ok? ==> r.value.0.LfNestType? && CanRead(data, off, 2) && r.value.0.leafType == U16(data, off) && r.value.1 >= off + 5
  {
    if !CanRead(data, off, 2) then Err(StructError)
    else
      var t := U16(data, off);
      var i :- if Is32(t) then
                 (if CanRead(data, off + 2, 6) then Ok((U32(data, off + 4), off + 8)) else Err(StructError))
               else ReadIndex(false, data, off + 2);
      var n :- ReadPascalString(data, i.1);
      Ok((LfNestType(t, i.0, n.0), n.1))
  }

  /** `LfVFuncTab.from_bytes`: the index alone, laid out as in a nested type. */
  function ReadVFuncTab(data: byteseq, off: nat): (r: Result<(Leaf, nat)>)
    ensures r.Ok? ==> r.value.0.LfVFuncTab? && CanRead(data, off, 2) && r.value.0.leafType == U16(data, off) && r.value.1 >= off + 4
  {
    if !CanRead(data, off, 2) then Err(StructError)
    else
      var t := U16(data, off);
      if Is32(t) then
        if CanRead(data, off + 2, 6) then Ok((LfVFuncTab(t, U32(data, off + 4)), off + 8)) else Err(StructError)
      else
        var i :- ReadIndex(false, data, off + 2);
        Ok((LfVFuncTab(t, i.0), i.1))
  }

  /**
   * `LfOneMethod.from_bytes`: the attribute, the index, a 32-bit vbaseoff
   * only for an introducing or pure-introducing virtual method (0
   * otherwise), and the name.
   */
  function ReadOneMethod(data: byteseq, off: nat): (r: Result<(Leaf, nat)>)
    ensures r.Ok? ==> r.value.0.LfOneMethod? && CanRead(data, off, 2) && r.value.0.leafType == U16(data, off) && r.value.1 >= off + 7
    ensures r.Ok? && !IntroducesVirtual(r.value.0.attr) ==> r.value.0.vbaseoff == 0
  {
    if !CanRead(data, off, 2) then Err(StructError)
    else
      var t := U16(data, off);
      var a :- ReadAttr(data, off + 2);
      var i :- ReadIndex(Is32(t), data, a.1);
      var vb :- if IntroducesVirtual(a.0) then ReadIndex(true, data, i.1) else Ok((0, i.1));
      var n :- ReadPascalString(data, vb.1);
      Ok((LfOneMethod(t, a.0, i.0, vb.0, n.0), n.1))
  }

  /** The reader the `match` dispatches to. */
  function ReadKind(h: Host, k: Kind, data: byteseq, off: nat): (r: Result<(Leaf, nat)>)
    ensures r.Ok? ==> KindOfLeaf(r.value.0) == k && CanRead(data, off, 2) && r.value.0.leafType == U16(data, off) && r.value.1 >= off + 4
  {
    match k
    case BClass => ReadBClass(h, data, off)
    case VBClass => ReadVBClass(h, data, off)
    case Enumerate => ReadEnumerate(h, data, off)
    case Member => ReadMember(h, data, off)
    case StaticMember => ReadStaticMember(data, off)
    case Method => ReadMethod(data, off)
    case NestType => ReadNestType(data, off)
    case VFuncTab => ReadVFuncTab(data, off)
    case OneMethod => ReadOneMethod(data, off)
  }

  /** A padding byte: 0xF1, 0xF2 or 0xF3, whose low two bits say how many bytes to skip. */
  predicate IsPad(b: int) { b == 0xF1 || b == 0xF2 || b == 0xF3 }

  /** One turn of the loop of `LfFieldList.from_bytes`. */
  datatype ListStep = Skip(next: nat) | Next(leaf: Leaf, next: nat) | Unknown | Fail(error: Error)

  function StepAt(h: Host, data: byteseq, off: nat): (s: ListStep)
    ensures s.Skip? ==> off < |data| && IsPad(data[off]) && s.next == off + data[off] % 4 && s.next > off
    ensures s.Next? ==> s.next >= off + 4 && KindOf(s.leaf.leafType) == Some(KindOfLeaf(s.leaf))
    ensures s.Unknown? ==> CanRead(data, off, 2) && KindOf(U16(data, off)).None?
  {
    if off >= |data| then Fail(IndexError)
    else if IsPad(data[off]) then Skip(off + data[off] % 4)
    else if !CanRead(data, off, 2) then Fail(StructError)
    else
      match KindOf(U16(data, off))
      case None => Unknown
      case Some(k) =>
        match ReadKind(h, k, data, off)
        case Ok(p) => Next(p.0, p.1)
        case Err(e) => Fail(e)
  }

  /** The leaves read from `off` while the offset is below `end`. */
  function LeavesFrom(h: Host, data: byteseq, off: nat, end: nat): (r: Result<seq<Leaf>>)
    ensures r.Ok? ==> forall i :: 0 <= i < |r.value| ==> KindOf(r.value[i].leafType) == Some(KindOfLeaf(r.value[i]))
    decreases end - off
  {
    if off >= end then Ok([])
    else
      match StepAt(h, data, off)
      case Skip(next) => LeavesFrom(h, data, next, end)
      case Unknown => Ok([])
      case Fail(e) => Err(e)
      case Next(l, next) =>
        match LeavesFrom(h, data, next, end)
        case Ok(rest) => Ok([l] + rest)
        case Err(e) => Err(e)
  }

  /** `LfFieldList.from_bytes`: the record's size (which counts its 2-byte type) bounds where leaves may start. */
  function FieldList(h: Host, data: byteseq, off: nat): (r: Result<seq<Leaf>>)
    ensures !CanRead(data, off, 4) ==> r == Err(StructError)
    ensures r.Ok? ==> forall i :: 0 <= i < |r.value| ==> KindOf(r.value[i].leafType) == Some(KindOfLeaf(r.value[i]))
  {
    if !CanRead(data, off, 4) then Err(StructError)
    else LeavesFrom(h, data, off + 4, off + U16(data, off) + 2)
  }

  /** The leaves gathered so far, put in front of what the rest of the loop reads. */
  function Glue(acc: seq<Leaf>, rest: Result<seq<Leaf>>): Result<seq<Leaf>>
  {
    match rest
    case Ok(ls) => Ok(acc + ls)
    case Err(e) => Err(e)
  }

  lemma GlueNext(acc: seq<Leaf>, leaf: Leaf, rest: Result<seq<Leaf>>)
    ensures Glue(acc, match rest case Ok(ls) => Ok([leaf] + ls) case Err(e) => Err(e)) == Glue(acc + [leaf], rest)
  {
    if rest.Ok? {
      assert acc + ([leaf] + rest.value) == (acc + [leaf]) + rest.value;
    }
  }

  /** The body of the loop: skip padding, stop at an unknown leaf type, or read one leaf. */
  method NextLeaf(h: Host, data: byteseq, o: nat) returns (s: ListStep)
    ensures s == StepAt(h, data, o)
  {
    if o >= |data| {
      return Fail(IndexError);
    }
    if IsPad(data[o]) {
      // `data[offset] & 3` of a byte 0xF1..0xF3 is its low two bits
      return Skip(o + data[o] % 4);
    }
    if !CanRead(data, o, 2) {
      return Fail(StructError);
    }
    var kind := KindOf(U16(data, o));
    if kind.None? {
      return Unknown;
    }
    var leaf := ReadKind(h, kind.value, data, o);
    if leaf.Err? {
      return Fail(leaf.error);
    }
    return Next(leaf.value.0, leaf.value.1);
  }

  /** The loop of `LfFieldList.from_bytes`, proved against `FieldList`. */
  method ReadFieldList(h: Host, data: byteseq, off: nat) returns (r: Result<seq<Leaf>>)
    ensures r == FieldList(h, data, off)
  {
    if !CanRead(data, off, 4) {
      return Err(StructError);
    }
    var end := off + U16(data, off) + 2;
    var o := off + 4;
    var leaves: seq<Leaf> := [];
    assert LeavesFrom(h, data, o, end).Ok? ==> [] + LeavesFrom(h, data, o, end).value == LeavesFrom(h, data, o, end).value;
    while o < end
      invariant FieldList(h, data, off) == Glue(leaves, LeavesFrom(h, data, o, end))
      decreases end - o
    {
      var step := NextLeaf(h, data, o);
      match step
      case Skip(next) =>
        o := next;
      case Unknown =>
        break;
      case Fail(e) =>
        return Err(e);
      case Next(leaf, next) =>
        GlueNext(leaves, leaf, LeavesFrom(h, data, next, end));
        leaves := leaves + [leaf];
        o := next;
    }
    assert leaves + [] == leaves;
    return Ok(leaves);
  }

  // ---- Writing leaves back, and reading what was written ----

  /** `data` holds `e` at `off`. */
  predicate AttrOk(a: FieldAttr) { a.access < 4 && a.mprop < 8 }

  /** The attribute word with its remaining bits clear. */
  function EncodeAttr(a: FieldAttr): (b: byteseq)
    requires AttrOk(a)
    ensures |b| == 2
  {
    PackU16(a.access + 4 * a.mprop)
  }

  lemma AttrAt(data: byteseq, off: nat, a: FieldAttr)
    requires AttrOk(a) && At(data, off, EncodeAttr(a))
    ensures ReadAttr(data, off) == Ok((a, off + 2))
  {
    var x := a.access + 4 * a.mprop;
    U16At(data, off, x);
    assert x % 32 == x;
    var b := ReadAttr(data, off).value.0;
    assert b.access + 4 * b.mprop == a.access + 4 * a.mprop;
    assert b.access == a.access && b.mprop == a.mprop by {
      AttrUnique(b.access, b.mprop, a.access, a.mprop);
    }
  }

  lemma AttrUnique(p: nat, q: nat, p': nat, q': nat)
    requires p < 4 && p' < 4 && p + 4 * q == p' + 4 * q'
    ensures p == p' && q == q'
  {}

  /** A packed integer the encoder can write and the host's reader reads back: the long forms need a 4-byte "l". */
  predicate NumOk(h: Host, v: Numeric)
  {
    && v.Int? && -0x8000_0000 <= v.i < 0x1_0000_0000
    && (h == LP64 ==> -0x8000 <= v.i < 0x1_0000)
  }

  lemma SmallNumericTag(n: int)
    requires -0x8000 <= n < 0x1_0000
    ensures |EncodeNumeric(n)| >= 2 && U16(EncodeNumeric(n), 0) < 0x8003
  {
    var e := EncodeNumeric(n);
    if !(0 <= n < 0x8000) {
      U16Prefix(e[..2], e[2..]);
      assert e == e[..2] + e[2..];
    }
  }

  /** Reading at `off` sees only `data[off..]`. */
  lemma PackedShift(lb: nat, data: byteseq, off: nat)
    requires lb == 4 || lb == 8
    requires off <= |data|
    ensures ReadPackedWith(lb, data, off).Ok? == ReadPackedWith(lb, data[off..], 0).Ok?
    ensures ReadPackedWith(lb, data, off).Ok? ==>
      ReadPackedWith(lb, data, off).value == (ReadPackedWith(lb, data[off..], 0).value.0, off + ReadPackedWith(lb, data[off..], 0).value.1)
  {
    var s := data[off..];
    if CanRead(data, off, 2) {
      assert U16(s, 0) == U16(data, off);
      var x := U16(data, off);
      if x >= 0x8000 && NumericTag(x).Some? {
        var l := NumericTag(x).value;
        if CanRead(data, off + 2, Width(l, lb)) {
          assert NumericAt(l, lb, s, 2) == NumericAt(l, lb, data, off + 2) by {
            forall j | 2 <= j < 2 + Width(l, lb) ensures s[j] == data[off + j] {}
            if l == LfReal32 {
              assert s[2..6] == data[off + 2..off + 6];
            } else if l == LfReal64 {
              assert s[2..10] == data[off + 2..off + 10];
            }
          }
        }
      }
    }
  }

  lemma PackedAt(h: Host, data: byteseq, off: nat, n: int)
    requires NumOk(h, Int(n)) && At(data, off, EncodeNumeric(n))
    ensures ReadPackedNative(h, data, off) == Ok((Int(n), off + |EncodeNumeric(n)|))
  {
    var e := EncodeNumeric(n);
    var rest := data[off + |e|..];
    assert data[off..] == e + rest;
    PackedRoundTrip(n, rest);
    PackedShift(4, data, off);
    assert ReadPacked(data, off) == Ok((Int(n), off + |e|));
    if h == LLP64 {
      NativeOnLLP64(data, off);
    } else {
      SmallNumericTag(n);
      assert U16(data, off) == U16(e, 0) by {
        assert data[off] == e[0] && data[off + 1] == e[1];
      }
      NativeAgreesOffLong(h, data, off);
    }
  }

  predicate NameOk(s: string) { IsAscii(s) && |s| < 0x100 }

  lemma PascalAt(data: byteseq, off: nat, s: string)
    requires NameOk(s) && At(data, off, EncodePascal(s))
    ensures ReadPascalString(data, off) == Ok((s, off + 1 + |s|))
  {
    var pre := data[..off];
    var post := data[off + 1 + |s|..];
    assert data == pre + EncodePascal(s) + post;
    PascalRoundTrip(pre, s, post);
  }

  /** The integer forms the encoder writes. */
  predicate NumRange(v: Numeric) { v.Int? && -0x8000_0000 <= v.i < 0x1_0000_0000 }

  /** One field of a leaf as a compiler writes it. */
  datatype Piece = Word(x: nat) | Dword(x: nat) | Attr(a: FieldAttr) | Num(v: Numeric) | Name(s: string)

  predicate PieceOk(p: Piece)
  {
    match p
    case Word(x) => x < 0x1_0000
    case Dword(x) => x < 0x1_0000_0000
    case Attr(a) => AttrOk(a)
    case Num(v) => NumRange(v)
    case Name(s) => NameOk(s)
  }

  function PieceBytes(p: Piece): (b: seq<int>)
    requires PieceOk(p)
  {
    match p
    case Word(x) => PackU16(x)
    case Dword(x) => PackU32(x)
    case Attr(a) => EncodeAttr(a)
    case Num(v) => EncodeNumeric(v.i)
    case Name(s) => EncodePascal(s)
  }

  predicate PiecesOk(ps: seq<Piece>) { forall j :: 0 <= j < |ps| ==> PieceOk(ps[j]) }

  /** The pieces written one after the other. */
  function Flatten(ps: seq<Piece>): (b: seq<int>)
    requires PiecesOk(ps)
    decreases |ps|
  {
    if ps == [] then [] else PieceBytes(ps[0]) + Flatten(ps[1..])
  }

  /** How many bytes a piece takes; a packed value takes the bytes of its shortest form. */
  function PieceLen(p: Piece): nat
  {
    match p
    case Word(_) => 2
    case Dword(_) => 4
    case Attr(_) => 2
    case Num(v) =>
      if !v.Int? || 0 <= v.i < 0x8000 then 2
      else if -0x80 <= v.i < 0 then 3
      else if -0x8000 <= v.i < 0x1_0000 then 4
      else 6
    case Name(s) => 1 + |s|
  }

  lemma PieceLenOk(p: Piece)
    requires PieceOk(p)
    ensures |PieceBytes(p)| == PieceLen(p)
  {}

  /** Where piece `j` starts within `Flatten(ps)`: the lengths of the pieces before it. */
  function Before(ps: seq<Piece>, j: nat): nat
    requires j <= |ps|
  {
    if j == 0 then 0 else Before(ps, j - 1) + PieceLen(ps[j - 1])
  }

  /** The pieces from `j` on take what the pieces before `j` leave. */
  lemma {:induction false} BeforeRest(ps: seq<Piece>, j: nat)
    requires PiecesOk(ps) && j <= |ps|
    ensures PiecesOk(ps[j..]) && Before(ps, j) + |Flatten(ps[j..])| == |Flatten(ps)|
  {
    if j > 0 {
      BeforeRest(ps, j - 1);
      assert ps[j - 1..][0] == ps[j - 1] && ps[j - 1..][1..] == ps[j..];
      PieceLenOk(ps[j - 1]);
    } else {
      assert ps[0..] == ps;
    }
  }

  lemma BeforeEnds(ps: seq<Piece>)
    requires PiecesOk(ps)
    ensures Before(ps, |ps|) == |Flatten(ps)|
  {
    BeforeRest(ps, |ps|);
  }

  /** The bytes from piece `j` on. */
  lemma {:induction false} PieceWindow(data: byteseq, off: nat, ps: seq<Piece>, j: nat)
    requires PiecesOk(ps) && j <= |ps| && At(data, off, Flatten(ps))
    ensures PiecesOk(ps[j..]) && At(data, off + Before(ps, j), Flatten(ps[j..]))
  {
    if j == 0 {
      assert ps[0..] == ps;
    } else {
      PieceWindow(data, off, ps, j - 1);
      assert ps[j - 1..][0] == ps[j - 1] && ps[j - 1..][1..] == ps[j..];
      var k, b := off + Before(ps, j - 1), PieceBytes(ps[j - 1]);
      AtSplit(data, k, b, Flatten(ps[j..]));
      PieceLenOk(ps[j - 1]);
      assert k + |b| == off + Before(ps, j);
    }
  }

  /** Piece `j` of a written sequence of pieces. */
  lemma PieceSplit(data: byteseq, off: nat, ps: seq<Piece>, j: nat)
    requires PiecesOk(ps) && j < |ps| && At(data, off, Flatten(ps))
    ensures At(data, off + Before(ps, j), PieceBytes(ps[j]))
  {
    PieceWindow(data, off, ps, j);
    assert ps[j..][0] == ps[j] && ps[j..][1..] == ps[j + 1..];
    AtSplit(data, off + Before(ps, j), PieceBytes(ps[j]), Flatten(ps[j + 1..]));
  }

  /** The reader of a piece gets it back at `k` and stops just past it. */
  predicate PieceRead(h: Host, data: byteseq, k: nat, p: Piece)
  {
    match p
    case Word(x) => CanRead(data, k, 2) && U16(data, k) == x
    case Dword(x) => CanRead(data, k, 4) && U32(data, k) == x
    case Attr(a) => ReadAttr(data, k) == Ok((a, k + 2))
    case Num(v) => ReadPackedNative(h, data, k) == Ok((v, k + PieceLen(p)))
    case Name(s) => ReadPascalString(data, k) == Ok((s, k + PieceLen(p)))
  }

  /** Piece `j` is read back where the pieces before it end. */
  predicate PieceReadIn(h: Host, data: byteseq, off: nat, ps: seq<Piece>, j: nat)
    requires j < |ps|
  {
    PieceRead(h, data, off + Before(ps, j), ps[j])
  }

  /** Every piece is read back where the pieces before it end. */
  predicate Reads(h: Host, data: byteseq, off: nat, ps: seq<Piece>)
  {
    forall j: nat {:trigger PieceReadIn(h, data, off, ps, j)} :: j < |ps| ==> PieceReadIn(h, data, off, ps, j)
  }

  /** The packed values among the pieces are ones the host's reader gets back. */
  predicate NumsOk(h: Host, ps: seq<Piece>)
  {
    forall j :: 0 <= j < |ps| && ps[j].Num? ==> NumOk(h, ps[j].v)
  }

  lemma PieceAtRead(h: Host, data: byteseq, k: nat, p: Piece)
    requires PieceOk(p) && (p.Num? ==> NumOk(h, p.v)) && At(data, k, PieceBytes(p))
    ensures PieceRead(h, data, k, p)
  {
    PieceLenOk(p);
    match p
    case Word(x) => U16At(data, k, x);
    case Dword(x) => U32At(data, k, x);
    case Attr(a) => AttrAt(data, k, a);
    case Num(v) => PackedAt(h, data, k, v.i);
    case Name(s) => PascalAt(data, k, s);
  }

  /** Written pieces read back one after the other. */
  lemma WrittenReads(h: Host, data: byteseq, off: nat, ps: seq<Piece>)
    requires PiecesOk(ps) && NumsOk(h, ps) && At(data, off, Flatten(ps))
    ensures Reads(h, data, off, ps)
  {
    forall j: nat | j < |ps| ensures PieceReadIn(h, data, off, ps, j) {
      PieceSplit(data, off, ps, j);
      PieceAtRead(h, data, off + Before(ps, j), ps[j]);
    }
  }

  // Piece `j` as read, and where the next one starts.

  lemma GotWord(h: Host, data: byteseq, off: nat, ps: seq<Piece>, j: nat, x: nat, k: nat)
    requires Reads(h, data, off, ps) && j < |ps| && ps[j] == Word(x) && k == off + Before(ps, j)
    ensures CanRead(data, k, 2) && U16(data, k) == x && off + Before(ps, j + 1) == k + 2
  {
    assert PieceReadIn(h, data, off, ps, j);
  }

  lemma GotDword(h: Host, data: byteseq, off: nat, ps: seq<Piece>, j: nat, x: nat, k: nat)
    requires Reads(h, data, off, ps) && j < |ps| && ps[j] == Dword(x) && k == off + Before(ps, j)
    ensures CanRead(data, k, 4) && U32(data, k) == x && off + Before(ps, j + 1) == k + 4
  {
    assert PieceReadIn(h, data, off, ps, j);
  }

  lemma GotAttr(h: Host, data: byteseq, off: nat, ps: seq<Piece>, j: nat, a: FieldAttr, k: nat)
    requires Reads(h, data, off, ps) && j < |ps| && ps[j] == Attr(a) && k == off + Before(ps, j)
    ensures ReadAttr(data, k) == Ok((a, k + 2)) && off + Before(ps, j + 1) == k + 2
  {
    assert PieceReadIn(h, data, off, ps, j);
  }

  lemma GotNum(h: Host, data: byteseq, off: nat, ps: seq<Piece>, j: nat, v: Numeric, k: nat)
    requires Reads(h, data, off, ps) && j < |ps| && ps[j] == Num(v) && k == off + Before(ps, j)
    ensures ReadPackedNative(h, data, k) == Ok((v, k + PieceLen(Num(v))))
    ensures off + Before(ps, j + 1) == k + PieceLen(Num(v))
  {
    assert PieceReadIn(h, data, off, ps, j);
  }

  lemma GotName(h: Host, data: byteseq, off: nat, ps: seq<Piece>, j: nat, s: string, k: nat)
    requires Reads(h, data, off, ps) && j < |ps| && ps[j] == Name(s) && k == off + Before(ps, j)
    ensures ReadPascalString(data, k) == Ok((s, k + 1 + |s|)) && off + Before(ps, j + 1) == k + 1 + |s|
  {
    assert PieceReadIn(h, data, off, ps, j);
  }

  function IndexPiece(wide: bool, i: nat): Piece { if wide then Dword(i) else Word(i) }

  lemma GotIndex(h: Host, data: byteseq, off: nat, ps: seq<Piece>, j: nat, wide: bool, i: nat, k: nat)
    requires Reads(h, data, off, ps) && j < |ps| && ps[j] == IndexPiece(wide, i) && k == off + Before(ps, j)
    ensures ReadIndex(wide, data, k) == Ok((i, k + (if wide then 4 else 2)))
    ensures off + Before(ps, j + 1) == k + (if wide then 4 else 2)
  {
    assert PieceReadIn(h, data, off, ps, j);
  }
  /** The index and the attribute, in the order the layout gives them. */
  lemma GotIndexAndAttr(h: Host, data: byteseq, off: nat, ps: seq<Piece>, j: nat, wide: bool, i: nat, a: FieldAttr, k: nat)
    requires Reads(h, data, off, ps) && j + 1 < |ps| && k == off + Before(ps, j)
    requires wide ==> ps[j] == Attr(a) && ps[j + 1] == Dword(i)
    requires !wide ==> ps[j] == Word(i) && ps[j + 1] == Attr(a)
    ensures IndexAndAttr(wide, data, k) == Ok((i, a, k + (if wide then 6 else 4)))
    ensures off + Before(ps, j + 2) == k + (if wide then 6 else 4)
  {
    if wide {
      GotAttr(h, data, off, ps, j, a, k);
      GotDword(h, data, off, ps, j + 1, i, k + 2);
    } else {
      GotWord(h, data, off, ps, j, i, k);
      GotAttr(h, data, off, ps, j + 1, a, k + 2);
    }
  }

  /** The fixed part of a virtual base class. */
  lemma GotVBHead(h: Host, data: byteseq, off: nat, ps: seq<Piece>, j: nat, wide: bool, i: nat, p: nat, a: FieldAttr, k: nat)
    requires Reads(h, data, off, ps) && j + 2 < |ps| && k == off + Before(ps, j)
    requires wide ==> ps[j] == Attr(a) && ps[j + 1] == Dword(i) && ps[j + 2] == Dword(p)
    requires !wide ==> ps[j] == Word(i) && ps[j + 1] == Word(p) && ps[j + 2] == Attr(a)
    ensures VBHead(wide, data, k) == Ok((i, p, a, k + (if wide then 10 else 6)))
    ensures off + Before(ps, j + 3) == k + (if wide then 10 else 6)
  {
    if wide {
      GotAttr(h, data, off, ps, j, a, k);
      GotDword(h, data, off, ps, j + 1, i, k + 2);
      GotDword(h, data, off, ps, j + 2, p, k + 6);
    } else {
      GotWord(h, data, off, ps, j, i, k);
      GotWord(h, data, off, ps, j + 1, p, k + 2);
      GotAttr(h, data, off, ps, j + 2, a, k + 4);
    }
  }


  // The fields of each leaf in the order its reader takes them, starting with the leaf type.

  function BClassPieces(l: Leaf): seq<Piece>
    requires l.LfBClass?
  {
    if Is32(l.leafType) then [Word(l.leafType), Attr(l.attr), Dword(l.index), Num(l.baseOffset)]
    else [Word(l.leafType), Word(l.index), Attr(l.attr), Num(l.baseOffset)]
  }

  function VBClassPieces(l: Leaf): seq<Piece>
    requires l.LfVBClass?
  {
    if Is32(l.leafType) then [Word(l.leafType), Attr(l.attr), Dword(l.index), Dword(l.vbptr), Num(l.vbpoff), Num(l.vbind)]
    else [Word(l.leafType), Word(l.index), Word(l.vbptr), Attr(l.attr), Num(l.vbpoff), Num(l.vbind)]
  }

  function EnumeratePieces(l: Leaf): seq<Piece>
    requires l.LfEnumerate?
  {
    [Word(l.leafType), Attr(l.attr), Num(l.value), Name(l.name)]
  }

  function MemberPieces(l: Leaf): seq<Piece>
    requires l.LfMember?
  {
    if Is32(l.leafType) then [Word(l.leafType), Attr(l.attr), Dword(l.index), Num(l.fieldOffset), Name(l.name)]
    else [Word(l.leafType), Word(l.index), Attr(l.attr), Num(l.fieldOffset), Name(l.name)]
  }

  function StaticMemberPieces(l: Leaf): seq<Piece>
    requires l.LfStaticMember?
  {
    if Is32(l.leafType) then [Word(l.leafType), Attr(l.attr), Dword(l.index), Name(l.name)]
    else [Word(l.leafType), Word(l.index), Attr(l.attr), Name(l.name)]
  }

  function MethodPieces(l: Leaf): seq<Piece>
    requires l.LfMethod?
  {
    [Word(l.leafType), Word(l.count), IndexPiece(Is32(l.leafType), l.index), Name(l.name)]
  }

  /** The 32-bit layout has two pad bytes, written as zero, before the index. */
  function NestTypePieces(l: Leaf): seq<Piece>
    requires l.LfNestType?
  {
    if Is32(l.leafType) then [Word(l.leafType), Word(0), Dword(l.index), Name(l.name)]
    else [Word(l.leafType), Word(l.index), Name(l.name)]
  }

  function VFuncTabPieces(l: Leaf): seq<Piece>
    requires l.LfVFuncTab?
  {
    if Is32(l.leafType) then [Word(l.leafType), Word(0), Dword(l.index)] else [Word(l.leafType), Word(l.index)]
  }

  function OneMethodPieces(l: Leaf): seq<Piece>
    requires l.LfOneMethod?
  {
    var i := IndexPiece(Is32(l.leafType), l.index);
    if IntroducesVirtual(l.attr) then [Word(l.leafType), Attr(l.attr), i, Dword(l.vbaseoff), Name(l.name)]
    else [Word(l.leafType), Attr(l.attr), i, Name(l.name)]
  }

  function Pieces(l: Leaf): seq<Piece>
  {
    match l
    case LfBClass(_, _, _, _) => BClassPieces(l)
    case LfVBClass(_, _, _, _, _, _) => VBClassPieces(l)
    case LfEnumerate(_, _, _, _) => EnumeratePieces(l)
    case LfMember(_, _, _, _, _) => MemberPieces(l)
    case LfStaticMember(_, _, _, _) => StaticMemberPieces(l)
    case LfMethod(_, _, _, _) => MethodPieces(l)
    case LfNestType(_, _, _) => NestTypePieces(l)
    case LfVFuncTab(_, _) => VFuncTabPieces(l)
    case LfOneMethod(_, _, _, _, _) => OneMethodPieces(l)
  }

  /**
   * A leaf that can be written out: its type is one the list reader
   * dispatches on, each field fits the width its layout gives it, and a
   * method that does not introduce a virtual has the vbaseoff 0 its
   * reader gives it.
   */
  predicate Encodable(l: Leaf)
  {
    && KindOf(l.leafType) == Some(KindOfLeaf(l))
    && PiecesOk(Pieces(l))
    && (l.LfOneMethod? && !IntroducesVirtual(l.attr) ==> l.vbaseoff == 0)
  }

  /** The bytes of a leaf, as a compiler lays them out. */
  function EncodeLeaf(l: Leaf): seq<int>
    requires Encodable(l)
  {
    Flatten(Pieces(l))
  }

  // What each reader needs to find in the buffer: the fields at offsets
  // k0 = off, k1, ... one after the other.

  lemma BClassFields(h: Host, data: byteseq, off: nat, l: Leaf, k1: nat, k2: nat, k3: nat)
    requires l.LfBClass? && CanRead(data, off, 2) && U16(data, off) == l.leafType && k1 == off + 2
    requires IndexAndAttr(Is32(l.leafType), data, k1) == Ok((l.index, l.attr, k2))
    requires ReadPackedNative(h, data, k2) == Ok((l.baseOffset, k3))
    ensures ReadBClass(h, data, off) == Ok((l, k3))
  {}

  lemma VBClassFields(h: Host, data: byteseq, off: nat, l: Leaf, k1: nat, k2: nat, k3: nat, k4: nat)
    requires l.LfVBClass? && CanRead(data, off, 2) && U16(data, off) == l.leafType && k1 == off + 2
    requires VBHead(Is32(l.leafType), data, k1) == Ok((l.index, l.vbptr, l.attr, k2))
    requires ReadPackedNative(h, data, k2) == Ok((l.vbpoff, k3))
    requires ReadPackedNative(h, data, k3) == Ok((l.vbind, k4))
    ensures ReadVBClass(h, data, off) == Ok((l, k4))
  {}

  lemma EnumerateFields(h: Host, data: byteseq, off: nat, l: Leaf, k0: nat, k1: nat, k2: nat, k3: nat, k4: nat)
    requires l.LfEnumerate? && k0 == off && CanRead(data, k0, 2) && U16(data, k0) == l.leafType && k1 == k0 + 2
    requires ReadAttr(data, k1) == Ok((l.attr, k2))
    requires ReadPackedNative(h, data, k2) == Ok((l.value, k3))
    requires ReadPascalString(data, k3) == Ok((l.name, k4))
    ensures ReadEnumerate(h, data, off) == Ok((l, k4))
  {}

  lemma MemberFields(h: Host, data: byteseq, off: nat, l: Leaf, k1: nat, k2: nat, k3: nat, k4: nat)
    requires l.LfMember? && CanRead(data, off, 2) && U16(data, off) == l.leafType && k1 == off + 2
    requires IndexAndAttr(Is32(l.leafType), data, k1) == Ok((l.index, l.attr, k2))
    requires ReadPackedNative(h, data, k2) == Ok((l.fieldOffset, k3))
    requires ReadPascalString(data, k3) == Ok((l.name, k4))
    ensures ReadMember(h, data, off) == Ok((l, k4))
  {}

  lemma StaticMemberFields(data: byteseq, off: nat, l: Leaf, k1: nat, k2: nat, k3: nat)
    requires l.LfStaticMember? && CanRead(data, off, 2) && U16(data, off) == l.leafType && k1 == off + 2
    requires IndexAndAttr(Is32(l.leafType), data, k1) == Ok((l.index, l.attr, k2))
    requires ReadPascalString(data, k2) == Ok((l.name, k3))
    ensures ReadStaticMember(data, off) == Ok((l, k3))
  {}

  lemma MethodFields(data: byteseq, off: nat, l: Leaf, k0: nat, k1: nat, k2: nat, k3: nat, k4: nat)
    requires l.LfMethod? && k0 == off && CanRead(data, k0, 2) && U16(data, k0) == l.leafType && k1 == k0 + 2
    requires CanRead(data, k1, 2) && U16(data, k1) == l.count && k2 == k1 + 2
    requires ReadIndex(Is32(l.leafType), data, k2) == Ok((l.index, k3))
    requires ReadPascalString(data, k3) == Ok((l.name, k4))
    ensures ReadMethod(data, off) == Ok((l, k4))
  {}

  lemma NestTypeFields(data: byteseq, off: nat, l: Leaf, k0: nat, k1: nat, k2: nat, k3: nat, end: nat)
    requires l.LfNestType? && k0 == off && CanRead(data, k0, 2) && U16(data, k0) == l.leafType && k1 == k0 + 2
    requires CanRead(data, k1, 2) && k2 == k1 + 2
    requires Is32(l.leafType) ==>
      CanRead(data, k2, 4) && U32(data, k2) == l.index && k3 == k2 + 4 && ReadPascalString(data, k3) == Ok((l.name, end))
    requires !Is32(l.leafType) ==> U16(data, k1) == l.index && ReadPascalString(data, k2) == Ok((l.name, end))
    ensures ReadNestType(data, off) == Ok((l, end))
  {}

  lemma VFuncTabFields(data: byteseq, off: nat, l: Leaf, k0: nat, k1: nat, k2: nat, end: nat)
    requires l.LfVFuncTab? && k0 == off && CanRead(data, k0, 2) && U16(data, k0) == l.leafType && k1 == k0 + 2
    requires CanRead(data, k1, 2) && k2 == k1 + 2
    requires Is32(l.leafType) ==> CanRead(data, k2, 4) && U32(data, k2) == l.index && end == k2 + 4
    requires !Is32(l.leafType) ==> U16(data, k1) == l.index && end == k2
    ensures ReadVFuncTab(data, off) == Ok((l, end))
  {}

  lemma OneMethodFields(data: byteseq, off: nat, l: Leaf, k0: nat, k1: nat, k2: nat, k3: nat, k4: nat, end: nat)
    requires l.LfOneMethod? && k0 == off && CanRead(data, k0, 2) && U16(data, k0) == l.leafType && k1 == k0 + 2
    requires ReadAttr(data, k1) == Ok((l.attr, k2))
    requires ReadIndex(Is32(l.leafType), data, k2) == Ok((l.index, k3))
    requires IntroducesVirtual(l.attr) ==> ReadIndex(true, data, k3) == Ok((l.vbaseoff, k4))
    requires !IntroducesVirtual(l.attr) ==> l.vbaseoff == 0 && k4 == k3
    requires ReadPascalString(data, k4) == Ok((l.name, end))
    ensures ReadOneMethod(data, off) == Ok((l, end))
  {}

  // Each leaf kind: a buffer holding the leaf's pieces in its layout reads
  // back as the leaf. The offsets k1, k2, ... are where each piece starts.

  lemma BClassRead(h: Host, data: byteseq, off: nat, l: Leaf)
    requires l.LfBClass? && Reads(h, data, off, BClassPieces(l))
    ensures ReadBClass(h, data, off) == Ok((l, off + Before(Pieces(l), |Pieces(l)|)))
  {
    var ps := BClassPieces(l);
    var w := Is32(l.leafType);
    var k2 := off + 2 + (if w then 6 else 4);
    GotWord(h, data, off, ps, 0, l.leafType, off);
    GotIndexAndAttr(h, data, off, ps, 1, w, l.index, l.attr, off + 2);
    GotNum(h, data, off, ps, 3, l.baseOffset, k2);
    BClassFields(h, data, off, l, off + 2, k2, k2 + PieceLen(Num(l.baseOffset)));
  }

  lemma VBClassRead(h: Host, data: byteseq, off: nat, l: Leaf)
    requires l.LfVBClass? && Reads(h, data, off, VBClassPieces(l))
    ensures ReadVBClass(h, data, off) == Ok((l, off + Before(Pieces(l), |Pieces(l)|)))
  {
    var ps := VBClassPieces(l);
    var w := Is32(l.leafType);
    var k2 := off + 2 + (if w then 10 else 6);
    var k3 := k2 + PieceLen(Num(l.vbpoff));
    GotWord(h, data, off, ps, 0, l.leafType, off);
    GotVBHead(h, data, off, ps, 1, w, l.index, l.vbptr, l.attr, off + 2);
    GotNum(h, data, off, ps, 4, l.vbpoff, k2);
    GotNum(h, data, off, ps, 5, l.vbind, k3);
    VBClassFields(h, data, off, l, off + 2, k2, k3, k3 + PieceLen(Num(l.vbind)));
  }

  lemma EnumerateRead(h: Host, data: byteseq, off: nat, l: Leaf)
    requires l.LfEnumerate? && Reads(h, data, off, EnumeratePieces(l))
    ensures ReadEnumerate(h, data, off) == Ok((l, off + Before(Pieces(l), |Pieces(l)|)))
  {
    var ps := EnumeratePieces(l);
    var k1, k2 := off + 2, off + 4;
    var k3 := k2 + PieceLen(Num(l.value));
    var k4 := k3 + 1 + |l.name|;
    GotWord(h, data, off, ps, 0, l.leafType, off);
    GotAttr(h, data, off, ps, 1, l.attr, k1);
    GotNum(h, data, off, ps, 2, l.value, k2);
    GotName(h, data, off, ps, 3, l.name, k3);
    EnumerateFields(h, data, off, l, off, k1, k2, k3, k4);
  }

  lemma MemberRead(h: Host, data: byteseq, off: nat, l: Leaf)
    requires l.LfMember? && Reads(h, data, off, MemberPieces(l))
    ensures ReadMember(h, data, off) == Ok((l, off + Before(Pieces(l), |Pieces(l)|)))
  {
    var ps := MemberPieces(l);
    var w := Is32(l.leafType);
    var k2 := off + 2 + (if w then 6 else 4);
    var k3 := k2 + PieceLen(Num(l.fieldOffset));
    GotWord(h, data, off, ps, 0, l.leafType, off);
    GotIndexAndAttr(h, data, off, ps, 1, w, l.index, l.attr, off + 2);
    GotNum(h, data, off, ps, 3, l.fieldOffset, k2);
    GotName(h, data, off, ps, 4, l.name, k3);
    MemberFields(h, data, off, l, off + 2, k2, k3, k3 + 1 + |l.name|);
  }

  lemma StaticMemberRead(h: Host, data: byteseq, off: nat, l: Leaf)
    requires l.LfStaticMember? && Reads(h, data, off, StaticMemberPieces(l))
    ensures ReadStaticMember(data, off) == Ok((l, off + Before(Pieces(l), |Pieces(l)|)))
  {
    var ps := StaticMemberPieces(l);
    var w := Is32(l.leafType);
    var k2 := off + 2 + (if w then 6 else 4);
    GotWord(h, data, off, ps, 0, l.leafType, off);
    GotIndexAndAttr(h, data, off, ps, 1, w, l.index, l.attr, off + 2);
    GotName(h, data, off, ps, 3, l.name, k2);
    StaticMemberFields(data, off, l, off + 2, k2, k2 + 1 + |l.name|);
  }

  lemma MethodRead(h: Host, data: byteseq, off: nat, l: Leaf)
    requires l.LfMethod? && Reads(h, data, off, MethodPieces(l))
    ensures ReadMethod(data, off) == Ok((l, off + Before(Pieces(l), |Pieces(l)|)))
  {
    var ps := MethodPieces(l);
    var k1, k2, k3 := off + 2, off + 4, if Is32(l.leafType) then off + 8 else off + 6;
    var k4 := k3 + 1 + |l.name|;
    GotWord(h, data, off, ps, 0, l.leafType, off);
    GotWord(h, data, off, ps, 1, l.count, k1);
    GotIndex(h, data, off, ps, 2, Is32(l.leafType), l.index, k2);
    GotName(h, data, off, ps, 3, l.name, k3);
    MethodFields(data, off, l, off, k1, k2, k3, k4);
  }

  lemma NestTypeRead(h: Host, data: byteseq, off: nat, l: Leaf)
    requires l.LfNestType? && Reads(h, data, off, NestTypePieces(l))
    ensures ReadNestType(data, off) == Ok((l, off + Before(Pieces(l), |Pieces(l)|)))
  {
    var ps := NestTypePieces(l);
    GotWord(h, data, off, ps, 0, l.leafType, off);
    if Is32(l.leafType) {
      GotWord(h, data, off, ps, 1, 0, off + 2);
      GotDword(h, data, off, ps, 2, l.index, off + 4);
      GotName(h, data, off, ps, 3, l.name, off + 8);
      NestTypeFields(data, off, l, off, off + 2, off + 4, off + 8, off + 9 + |l.name|);
    } else {
      GotWord(h, data, off, ps, 1, l.index, off + 2);
      GotName(h, data, off, ps, 2, l.name, off + 4);
      NestTypeFields(data, off, l, off, off + 2, off + 4, off + 8, off + 5 + |l.name|);
    }
  }

  lemma VFuncTabRead(h: Host, data: byteseq, off: nat, l: Leaf)
    requires l.LfVFuncTab? && Reads(h, data, off, VFuncTabPieces(l))
    ensures ReadVFuncTab(data, off) == Ok((l, off + Before(Pieces(l), |Pieces(l)|)))
  {
    var ps := VFuncTabPieces(l);
    GotWord(h, data, off, ps, 0, l.leafType, off);
    if Is32(l.leafType) {
      GotWord(h, data, off, ps, 1, 0, off + 2);
      GotDword(h, data, off, ps, 2, l.index, off + 4);
      VFuncTabFields(data, off, l, off, off + 2, off + 4, off + 8);
    } else {
      GotWord(h, data, off, ps, 1, l.index, off + 2);
      VFuncTabFields(data, off, l, off, off + 2, off + 4, off + 4);
    }
  }

  lemma OneMethodRead(h: Host, data: byteseq, off: nat, l: Leaf)
    requires l.LfOneMethod? && Reads(h, data, off, OneMethodPieces(l))
    requires !IntroducesVirtual(l.attr) ==> l.vbaseoff == 0
    ensures ReadOneMethod(data, off) == Ok((l, off + Before(Pieces(l), |Pieces(l)|)))
  {
    var ps := OneMethodPieces(l);
    var k3 := if Is32(l.leafType) then off + 8 else off + 6;
    var k4 := if IntroducesVirtual(l.attr) then k3 + 4 else k3;
    GotWord(h, data, off, ps, 0, l.leafType, off);
    GotAttr(h, data, off, ps, 1, l.attr, off + 2);
    GotIndex(h, data, off, ps, 2, Is32(l.leafType), l.index, off + 4);
    if IntroducesVirtual(l.attr) {
      GotIndex(h, data, off, ps, 3, true, l.vbaseoff, k3);
      GotName(h, data, off, ps, 4, l.name, k4);
    } else {
      GotName(h, data, off, ps, 3, l.name, k4);
    }
    OneMethodFields(data, off, l, off, off + 2, off + 4, k3, k4, k4 + 1 + |l.name|);
  }

  /** Base-class leaves. */
  lemma BaseLeafReads(h: Host, data: byteseq, off: nat, l: Leaf)
    requires (l.LfBClass? || l.LfVBClass?) && Reads(h, data, off, Pieces(l))
    ensures ReadKind(h, KindOfLeaf(l), data, off) == Ok((l, off + Before(Pieces(l), |Pieces(l)|)))
  {
    if l.LfBClass? {
      BClassRead(h, data, off, l);
    } else {
      VBClassRead(h, data, off, l);
    }
  }

  /** Data-member and enumerator leaves. */
  lemma DataLeafReads(h: Host, data: byteseq, off: nat, l: Leaf)
    requires (l.LfEnumerate? || l.LfMember? || l.LfStaticMember?) && Reads(h, data, off, Pieces(l))
    ensures ReadKind(h, KindOfLeaf(l), data, off) == Ok((l, off + Before(Pieces(l), |Pieces(l)|)))
  {
    if l.LfEnumerate? {
      EnumerateRead(h, data, off, l);
    } else if l.LfMember? {
      MemberRead(h, data, off, l);
    } else {
      StaticMemberRead(h, data, off, l);
    }
  }

  /** Method leaves. */
  lemma MethodLeafReads(h: Host, data: byteseq, off: nat, l: Leaf)
    requires (l.LfMethod? || l.LfOneMethod?) && Reads(h, data, off, Pieces(l))
    requires l.LfOneMethod? && !IntroducesVirtual(l.attr) ==> l.vbaseoff == 0
    ensures ReadKind(h, KindOfLeaf(l), data, off) == Ok((l, off + Before(Pieces(l), |Pieces(l)|)))
  {
    if l.LfMethod? {
      MethodRead(h, data, off, l);
    } else {
      OneMethodRead(h, data, off, l);
    }
  }

  /** Nested-type and virtual-table leaves. */
  lemma NestedLeafReads(h: Host, data: byteseq, off: nat, l: Leaf)
    requires (l.LfNestType? || l.LfVFuncTab?) && Reads(h, data, off, Pieces(l))
    ensures ReadKind(h, KindOfLeaf(l), data, off) == Ok((l, off + Before(Pieces(l), |Pieces(l)|)))
  {
    if l.LfNestType? {
      NestTypeRead(h, data, off, l);
    } else {
      VFuncTabRead(h, data, off, l);
    }
  }

  /** A buffer holding a leaf's pieces is read back as the leaf by the reader its type selects. */
  lemma LeafReads(h: Host, data: byteseq, off: nat, l: Leaf)
    requires Reads(h, data, off, Pieces(l))
    requires l.LfOneMethod? && !IntroducesVirtual(l.attr) ==> l.vbaseoff == 0
    ensures ReadKind(h, KindOfLeaf(l), data, off) == Ok((l, off + Before(Pieces(l), |Pieces(l)|)))
  {
    if l.LfBClass? || l.LfVBClass? {
      BaseLeafReads(h, data, off, l);
    } else if l.LfEnumerate? || l.LfMember? || l.LfStaticMember? {
      DataLeafReads(h, data, off, l);
    } else if l.LfMethod? || l.LfOneMethod? {
      MethodLeafReads(h, data, off, l);
    } else {
      NestedLeafReads(h, data, off, l);
    }
  }

  /** Any written leaf is read back by the reader its type selects, which stops just past it. */
  lemma LeafAt(h: Host, data: byteseq, off: nat, l: Leaf)
    requires Encodable(l) && NumsOk(h, Pieces(l)) && At(data, off, EncodeLeaf(l))
    ensures ReadKind(h, KindOfLeaf(l), data, off) == Ok((l, off + |EncodeLeaf(l)|))
  {
    WrittenReads(h, data, off, Pieces(l));
    BeforeEnds(Pieces(l));
    LeafReads(h, data, off, l);
  }

  // ---- Whole field lists ----

  /** How many padding bytes bring a leaf of `n` bytes to a 4-byte boundary. */
  function PadLen(n: nat): (p: nat)
    ensures p < 4 && (n + p) % 4 == 0
  {
    (4 - n % 4) % 4
  }

  /** Padding of `p` bytes as a compiler writes it: 0xF0 plus the number of bytes left, counting down. */
  function Pad(p: nat): (b: seq<int>)
    requires p < 4
    ensures |b| == p
  {
    seq(p, i requires 0 <= i < p => 0xF0 + p - i)
  }

  /** The reader skips a whole padding run at its first byte. */
  lemma PadSkips(h: Host, data: byteseq, off: nat, p: nat, next: nat)
    requires 0 < p < 4 && At(data, off, Pad(p)) && next == off + p
    ensures StepAt(h, data, off) == Skip(next)
  {
    assert data[off] == Pad(p)[0];
  }

  predicate AllEncodable(ls: seq<Leaf>) { forall i :: 0 <= i < |ls| ==> Encodable(ls[i]) }

  /** Every numeric field of every leaf is one the host's reader reads back. */
  predicate AllNumsOk(h: Host, ls: seq<Leaf>)
    requires AllEncodable(ls)
  {
    forall i :: 0 <= i < |ls| ==> NumsOk(h, Pieces(ls[i]))
  }

  /** Each leaf followed by the padding that aligns the next one. */
  function EncodeLeaves(ls: seq<Leaf>): seq<int>
    requires AllEncodable(ls)
  {
    if ls == [] then []
    else
      var e := EncodeLeaf(ls[0]);
      e + Pad(PadLen(|e|)) + EncodeLeaves(ls[1..])
  }

  /** A leaf never starts with a padding byte: the low byte of every listed leaf type is at most 0x0C. */
  lemma LeafStep(h: Host, data: byteseq, off: nat, l: Leaf, next: nat)
    requires Encodable(l) && NumsOk(h, Pieces(l)) && At(data, off, EncodeLeaf(l)) && next == off + |EncodeLeaf(l)|
    ensures StepAt(h, data, off) == Next(l, next)
  {
    LeafAt(h, data, off, l);
    U16Low(data, off);
  }

  /** One leaf, then the padding after it if any, then what the rest of the loop reads. */
  lemma LeavesFromNext(h: Host, data: byteseq, off: nat, end: nat, l: Leaf, mid: nat, next: nat, tail: seq<Leaf>)
    requires off < end && StepAt(h, data, off) == Next(l, mid)
    requires mid == next || (mid < end && StepAt(h, data, mid) == Skip(next))
    requires LeavesFrom(h, data, next, end) == Ok(tail)
    ensures LeavesFrom(h, data, off, end) == Ok([l] + tail)
  {
  }

  lemma TailOk(h: Host, ls: seq<Leaf>)
    requires |ls| > 0 && AllEncodable(ls) && AllNumsOk(h, ls)
    ensures Encodable(ls[0]) && NumsOk(h, Pieces(ls[0])) && AllEncodable(ls[1..]) && AllNumsOk(h, ls[1..])
  {
    forall i | 0 <= i < |ls| - 1 ensures Encodable(ls[1..][i]) && NumsOk(h, Pieces(ls[1..][i])) {
      assert ls[1..][i] == ls[i + 1];
    }
  }

  /** Written leaves, with their padding, are read back one by one up to the end of the run. */
  lemma {:induction false} LeavesAt(h: Host, data: byteseq, off: nat, end: nat, ls: seq<Leaf>)
    requires AllEncodable(ls) && AllNumsOk(h, ls) && At(data, off, EncodeLeaves(ls)) && end == off + |EncodeLeaves(ls)|
    ensures LeavesFrom(h, data, off, end) == Ok(ls)
    decreases |ls|
  {
    if ls != [] {
      TailOk(h, ls);
      var l, tail := ls[0], ls[1..];
      var e := EncodeLeaf(l);
      var p := PadLen(|e|);
      var rest := EncodeLeaves(tail);
      var mid, next := off + |e|, off + |e| + p;
      assert EncodeLeaves(ls) == (e + Pad(p)) + rest;
      AtSplitAt(data, off, e + Pad(p), rest, next);
      AtSplitAt(data, off, e, Pad(p), mid);
      LeafStep(h, data, off, l, mid);
      LeavesAt(h, data, next, end, tail);
      if p > 0 {
        PadSkips(h, data, mid, p, next);
      }
      LeavesFromNext(h, data, off, end, l, mid, next, tail);
      assert [l] + tail == ls;
    }
  }

  /** An LF_FIELDLIST record: its size (counting the 2-byte record type), the record type, then the padded leaves. */
  function EncodeFieldList(recType: nat, ls: seq<Leaf>): (b: seq<int>)
    requires recType < 0x1_0000 && AllEncodable(ls) && |EncodeLeaves(ls)| + 2 < 0x1_0000
    ensures |b| == 4 + |EncodeLeaves(ls)|
  {
    PackU16(|EncodeLeaves(ls)| + 2) + PackU16(recType) + EncodeLeaves(ls)
  }

  /** The size word and the record type come before the leaves. */
  lemma FieldListShape(data: byteseq, off: nat, recType: nat, ls: seq<Leaf>)
    requires recType < 0x1_0000 && AllEncodable(ls) && |EncodeLeaves(ls)| + 2 < 0x1_0000
    requires At(data, off, EncodeFieldList(recType, ls))
    ensures CanRead(data, off, 4) && U16(data, off) == |EncodeLeaves(ls)| + 2 && At(data, off + 4, EncodeLeaves(ls))
  {
    var body := EncodeLeaves(ls);
    AtSplit3(data, off, PackU16(|body| + 2), PackU16(recType), body, off + 2, off + 4);
    U16At(data, off, |body| + 2);
  }

  /** Leaves written after the size word are read back up to the end the size gives. */
  lemma FieldListBody(h: Host, data: byteseq, off: nat, ls: seq<Leaf>)
    requires AllEncodable(ls) && AllNumsOk(h, ls)
    requires CanRead(data, off, 4) && U16(data, off) == |EncodeLeaves(ls)| + 2 && At(data, off + 4, EncodeLeaves(ls))
    ensures FieldList(h, data, off) == Ok(ls)
  {
    var end := off + 4 + |EncodeLeaves(ls)|;
    LeavesAt(h, data, off + 4, end, ls);
    FieldListFrom(h, data, off, end, ls);
  }

  lemma FieldListFrom(h: Host, data: byteseq, off: nat, end: nat, ls: seq<Leaf>)
    requires CanRead(data, off, 4) && end == off + U16(data, off) + 2 && LeavesFrom(h, data, off + 4, end) == Ok(ls)
    ensures FieldList(h, data, off) == Ok(ls)
  {}

  /** A written field list reads back as its leaves, on either host. */
  lemma FieldListAt(h: Host, data: byteseq, off: nat, recType: nat, ls: seq<Leaf>)
    requires recType < 0x1_0000 && AllEncodable(ls) && AllNumsOk(h, ls) && |EncodeLeaves(ls)| + 2 < 0x1_0000
    requires At(data, off, EncodeFieldList(recType, ls))
    ensures FieldList(h, data, off) == Ok(ls)
  {
    FieldListShape(data, off, recType, ls);
    FieldListBody(h, data, off, ls);
  }

  /**
   * The record size bounds where a leaf may start, not where it ends: a
   * leaf that starts inside the record is read in full even when it runs
   * past the size, and the list ends after it.
   */
  lemma StraddlingLeaf(h: Host)
    ensures FieldList(h, [4, 0, 0x03, 0x12, 0x0A, 0x04, 0x34, 0x12], 0) == Ok([LfVFuncTab(0x040A, 0x1234)])
  {
    var data: byteseq := [4, 0, 0x03, 0x12, 0x0A, 0x04, 0x34, 0x12];
    assert U16(data, 0) == 4 && U16(data, 4) == 0x040A && U16(data, 6) == 0x1234;
    assert ReadVFuncTab(data, 4) == Ok((LfVFuncTab(0x040A, 0x1234), 8));
    assert StepAt(h, data, 4) == Next(LfVFuncTab(0x040A, 0x1234), 8);
    assert LeavesFrom(h, data, 8, 6) == Ok([]);
    assert [LfVFuncTab(0x040A, 0x1234)] + [] == [LfVFuncTab(0x040A, 0x1234)];
    assert LeavesFrom(h, data, 4, 6) == Ok([LfVFuncTab(0x040A, 0x1234)]);
  }

  // Leaves taken from the repository's field-list tests, read at offset 0;
  // the name and the trailing pad bytes are left general.

  /** An LF_ENUMERATE whose value is a literal (0 in the test). */
  lemma EnumerateLiteralSample(h: Host, s: string, post: byteseq)
    requires IsAscii(s) && |s| < 0x100
    ensures ReadEnumerate(h, [0x03, 0x04, 0x03, 0x00, 0x00, 0x00] + EncodePascal(s) + post, 0)
      == Ok((LfEnumerate(0x0403, FieldAttr(3, 0), Int(0), s), 7 + |s|))
  {
    var pre: byteseq := [0x03, 0x04, 0x03, 0x00, 0x00, 0x00];
    PascalRoundTrip(pre, s, post);
  }

  /** An LF_ENUMERATE whose value is an LF_CHAR (-1 in the test). */
  lemma EnumerateCharSample(h: Host, s: string, post: byteseq)
    requires IsAscii(s) && |s| < 0x100
    ensures ReadEnumerate(h, [0x03, 0x04, 0x03, 0x00, 0x00, 0x80, 0xFF] + EncodePascal(s) + post, 0)
      == Ok((LfEnumerate(0x0403, FieldAttr(3, 0), Int(-1), s), 8 + |s|))
  {
    var pre: byteseq := [0x03, 0x04, 0x03, 0x00, 0x00, 0x80, 0xFF];
    PascalRoundTrip(pre, s, post);
    assert U16(pre + EncodePascal(s) + post, 4) == 0x8000;
  }

  /** An LF_ENUMERATE whose value is an LF_USHORT (32768 in the test). */
  lemma EnumerateUShortSample(h: Host, s: string, post: byteseq)
    requires IsAscii(s) && |s| < 0x100
    ensures ReadEnumerate(h, [0x03, 0x04, 0x03, 0x00, 0x02, 0x80, 0x00, 0x80] + EncodePascal(s) + post, 0)
      == Ok((LfEnumerate(0x0403, FieldAttr(3, 0), Int(32768), s), 9 + |s|))
  {
    var pre: byteseq := [0x03, 0x04, 0x03, 0x00, 0x02, 0x80, 0x00, 0x80];
    PascalRoundTrip(pre, s, post);
    assert U16(pre + EncodePascal(s) + post, 4) == 0x8002;
  }

  /** An LF_ENUMERATE whose value is an LF_LONG (the test's -2147483648), read where "l" has four bytes. */
  lemma EnumerateLongSample(s: string, post: byteseq)
    requires IsAscii(s) && |s| < 0x100
    ensures ReadEnumerate(LLP64, [0x03, 0x04, 0x03, 0x00, 0x03, 0x80, 0x00, 0x00, 0x00, 0x80] + EncodePascal(s) + post, 0)
      == Ok((LfEnumerate(0x0403, FieldAttr(3, 0), Int(-0x8000_0000), s), 11 + |s|))
  {
    var pre: byteseq := [0x03, 0x04, 0x03, 0x00, 0x03, 0x80, 0x00, 0x00, 0x00, 0x80];
    PascalRoundTrip(pre, s, post);
    assert U16(pre + EncodePascal(s) + post, 4) == 0x8003;
  }

  /** An LF_ENUMERATE whose value is an LF_ULONG (the test's 65536), read where "L" has four bytes. */
  lemma EnumerateULongSample(s: string, post: byteseq)
    requires IsAscii(s) && |s| < 0x100
    ensures ReadEnumerate(LLP64, [0x03, 0x04, 0x03, 0x00, 0x04, 0x80, 0x00, 0x00, 0x01, 0x00] + EncodePascal(s) + post, 0)
      == Ok((LfEnumerate(0x0403, FieldAttr(3, 0), Int(0x1_0000), s), 11 + |s|))
  {
    var pre: byteseq := [0x03, 0x04, 0x03, 0x00, 0x04, 0x80, 0x00, 0x00, 0x01, 0x00];
    PascalRoundTrip(pre, s, post);
    assert U16(pre + EncodePascal(s) + post, 4) == 0x8004;
  }

  /** A 16-bit LF_NESTTYPE (index 0x75 in the test). */
  lemma NestTypeSample16(s: string, post: byteseq)
    requires IsAscii(s) && |s| < 0x100
    ensures ReadNestType([0x09, 0x04, 0x75, 0x00] + EncodePascal(s) + post, 0)
      == Ok((LfNestType(0x0409, 0x75, s), 5 + |s|))
  {
    var pre: byteseq := [0x09, 0x04, 0x75, 0x00];
    var data := pre + EncodePascal(s) + post;
    assert U16(data, 0) == 0x0409 && !Is32(0x0409) by { assert data[0] == 0x09 && data[1] == 0x04; }
    assert ReadIndex(false, data, 2) == Ok((0x75, 4)) by { assert data[2] == 0x75 && data[3] == 0; }
    PascalRoundTrip(pre, s, post);
  }

  /** A 32-bit LF_NESTTYPE: two pad bytes, then the index. */
  lemma NestTypeSample32(s: string, post: byteseq)
    requires IsAscii(s) && |s| < 0x100
    ensures ReadNestType([0x08, 0x14, 0x00, 0x00, 0x75, 0x00, 0x00, 0x00] + EncodePascal(s) + post, 0)
      == Ok((LfNestType(0x1408, 0x75, s), 9 + |s|))
  {
    var pre: byteseq := [0x08, 0x14, 0x00, 0x00, 0x75, 0x00, 0x00, 0x00];
    var data := pre + EncodePascal(s) + post;
    assert U16(data, 0) == 0x1408 && Is32(0x1408) by { assert data[0] == 0x08 && data[1] == 0x14; }
    assert U32(data, 4) == 0x75 by { assert data[4] == 0x75 && data[5] == 0 && data[6] == 0 && data[7] == 0; }
    PascalRoundTrip(pre, s, post);
  }

  /** A public LF_ONEMETHOD that is not an introducing virtual: no vbaseoff is read. */
  lemma OneMethodSample(s: string, post: byteseq)
    requires IsAscii(s) && |s| < 0x100
    ensures ReadOneMethod([0x0B, 0x14, 0x03, 0x00, 0x46, 0x15, 0x00, 0x00] + EncodePascal(s) + post, 0)
      == Ok((LfOneMethod(0x140B, FieldAttr(3, 0), 0x1546, 0, s), 9 + |s|))
  {
    var pre: byteseq := [0x0B, 0x14, 0x03, 0x00, 0x46, 0x15, 0x00, 0x00];
    PascalRoundTrip(pre, s, post);
    var data := pre + EncodePascal(s) + post;
    assert U16(data, 2) == 3;
    assert ReadAttr(data, 2) == Ok((FieldAttr(3, 0), 4));
    assert ReadIndex(true, data, 4) == Ok((0x1546, 8));
  }

  /** A protected introducing virtual LF_ONEMETHOD: the vbaseoff follows the index. */
  lemma OneMethodIntroSample(s: string, post: byteseq)
    requires IsAscii(s) && |s| < 0x100
    ensures ReadOneMethod([0x0B, 0x14, 0x12, 0x00, 0x41, 0x19, 0x00, 0x00, 0x08, 0x00, 0x00, 0x00] + EncodePascal(s) + post, 0)
      == Ok((LfOneMethod(0x140B, FieldAttr(2, 4), 0x1941, 8, s), 13 + |s|))
  {
    var pre: byteseq := [0x0B, 0x14, 0x12, 0x00, 0x41, 0x19, 0x00, 0x00, 0x08, 0x00, 0x00, 0x00];
    PascalRoundTrip(pre, s, post);
    var data := pre + EncodePascal(s) + post;
    assert U16(data, 2) == 0x12;
    assert ReadAttr(data, 2) == Ok((FieldAttr(2, 4), 4));
    assert ReadIndex(true, data, 4) == Ok((0x1941, 8));
    assert ReadIndex(true, data, 8) == Ok((8, 12));
  }

  /** A public pure introducing virtual LF_ONEMETHOD. */
  lemma OneMethodPureIntroSample(s: string, post: byteseq)
    requires IsAscii(s) && |s| < 0x100
    ensures ReadOneMethod([0x0B, 0x14, 0x1B, 0x00, 0x2E, 0x18, 0x00, 0x00, 0x04, 0x00, 0x00, 0x00] + EncodePascal(s) + post, 0)
      == Ok((LfOneMethod(0x140B, FieldAttr(3, 6), 0x182E, 4, s), 13 + |s|))
  {
    var pre: byteseq := [0x0B, 0x14, 0x1B, 0x00, 0x2E, 0x18, 0x00, 0x00, 0x04, 0x00, 0x00, 0x00];
    PascalRoundTrip(pre, s, post);
    var data := pre + EncodePascal(s) + post;
    assert U16(data, 2) == 0x1B;
    assert ReadAttr(data, 2) == Ok((FieldAttr(3, 6), 4));
    assert ReadIndex(true, data, 4) == Ok((0x182E, 8));
    assert ReadIndex(true, data, 8) == Ok((4, 12));
  }

  /** A 32-bit LF_MEMBER at field offset 4. */
  lemma MemberSample32(h: Host, s: string, post: byteseq)
    requires IsAscii(s) && |s| < 0x100
    ensures ReadMember(h, [0x05, 0x14, 0x03, 0x00, 0x12, 0x04, 0x00, 0x00, 0x04, 0x00] + EncodePascal(s) + post, 0)
      == Ok((LfMember(0x1405, 0x412, FieldAttr(3, 0), Int(4), s), 11 + |s|))
  {
    var pre: byteseq := [0x05, 0x14, 0x03, 0x00, 0x12, 0x04, 0x00, 0x00, 0x04, 0x00];
    var data := pre + EncodePascal(s) + post;
    assert CanRead(data, 0, 2) && U16(data, 0) == 0x1405 && Is32(0x1405) by {
      assert data[0] == 0x05 && data[1] == 0x14;
    }
    assert IndexAndAttr(true, data, 2) == Ok((0x412, FieldAttr(3, 0), 8)) by {
      assert data[2..8] == pre[2..8];
    }
    assert ReadPackedNative(h, data, 8) == Ok((Int(4), 10)) by {
      assert data[8] == 4 && data[9] == 0;
    }
    assert ReadPascalString(data, 10) == Ok((s, 11 + |s|)) by {
      PascalRoundTrip(pre, s, post);
    }
    MemberOfParts(h, data, 0x1405, 0x412, FieldAttr(3, 0), Int(4), s, 11 + |s|);
  }

  /** A data member whose parts read as given at offsets 0, 2, 8 and 10. */
  lemma MemberOfParts(h: Host, data: byteseq, t: nat, index: nat, a: FieldAttr, v: Numeric, s: string, e: nat)
    requires CanRead(data, 0, 2) && U16(data, 0) == t && Is32(t)
    requires IndexAndAttr(true, data, 2) == Ok((index, a, 8))
    requires ReadPackedNative(h, data, 8) == Ok((v, 10))
    requires ReadPascalString(data, 10) == Ok((s, e))
    ensures ReadMember(h, data, 0) == Ok((LfMember(t, index, a, v, s), e))
  {
  }
}
