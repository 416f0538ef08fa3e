/**
 * The list-shaped type records of the TPI stream
 * (reccmp/isledecomp/formats/pdb/tpi.py): LF_METHODLIST, whose entries
 * `LfMethod.from_bytes` reads until the end of the buffer it is given, and
 * LF_ARGLIST, a count followed by that many type indices.
 *
 * Every record starts with its 16-bit size (not counting itself) and its
 * 16-bit leaf type; bit 0x1000 of the type selects the layout with 32-bit
 * type indices.
 */
module TpiLists {
  import opened Wrappers
  import opened Bytes
  import opened StructFormat
  import PdbFieldList

  // Method lists

  /** `LfMethod`: the raw attribute word, the type index, and a vbaseoff that is 0 unless one is read. */
  datatype MethodEntry = MethodEntry(attr: nat, index: nat, vbaseoff: nat)

  /** The method property of an attribute word: bits 2-4 of CV_fldattr_t. */
  function MProp(attr: nat): nat { (attr / 4) % 8 }

  /**
   * Which entries carry a vbaseoff. `AsWritten` is the test of tpi.py,
   * bit 4 of the attribute; `Intended` is an introducing virtual (property
   * 4) or a pure introducing virtual (property 6), the rule of LfOneMethod.
   */
  datatype VBaseRule = AsWritten | Intended

  predicate HasVBase(rule: VBaseRule, attr: nat)
  {
    match rule
    case AsWritten => (attr / 8) % 4 >= 2
    case Intended => MProp(attr) == 4 || MProp(attr) == 6
  }

  /** As written, every method property from 4 up takes a vbaseoff: the pure virtual (5) included. */
  lemma AsWrittenRule(attr: nat)
    ensures HasVBase(AsWritten, attr) <==> MProp(attr) >= 4
    ensures HasVBase(Intended, attr) ==> HasVBase(AsWritten, attr)
  {
    var q := attr / 4;
    assert attr / 8 == q / 2;
    assert (q / 2) % 4 >= 2 <==> q % 8 >= 4;
  }

  /** The fixed part of an entry: the attribute, two pad bytes and a 32-bit index, or two 16-bit words. */
  function EntryFormat(wide: bool): (ws: seq<nat>)
    ensures IsFormat(ws) && CalcSize(ws) == if wide then 8 else 4
  {
    if wide then [2, 2, 4] else [2, 2]
  }

  /** One turn of the loop of `LfMethod.from_bytes`; it gives the entry and the offset after it. */
  function ReadEntry(rule: VBaseRule, wide: bool, data: byteseq, off: nat): (r: Result<(MethodEntry, nat)>)
    ensures !CanRead(data, off, if wide then 8 else 4) ==> r == Err(StructError)
    ensures r.Err? ==> r.error == StructError
    ensures r.Ok? ==> r.value.0.attr < 0x1_0000 && r.value.0.index < Limit(if wide then 4 else 2)
    ensures r.Ok? ==> r.value.1 == off + (if wide then 8 else 4) + (if HasVBase(rule, r.value.0.attr) then 4 else 0)
    ensures r.Ok? && !HasVBase(rule, r.value.0.attr) ==> r.value.0.vbaseoff == 0
  {
    var f :- Unpack(EntryFormat(wide), data, off);
    var next := off + CalcSize(EntryFormat(wide));
    var attr := f[0];
    var index := if wide then f[2] else f[1];
    if HasVBase(rule, attr) then
      var vb :- Unpack([4], data, next);
      Ok((MethodEntry(attr, index, vb[0]), next + 4))
    else Ok((MethodEntry(attr, index, 0), next))
  }

  /** The entries read from `off` while the offset is inside the buffer; a short read is `struct.error`. */
  function EntriesFrom(rule: VBaseRule, wide: bool, data: byteseq, off: nat): (r: Result<seq<MethodEntry>>)
    ensures r.Err? ==> r.error == StructError
    ensures off >= |data| ==> r == Ok([])
    ensures r.Ok? ==> forall i :: 0 <= i < |r.value| ==> !HasVBase(rule, r.value[i].attr) ==> r.value[i].vbaseoff == 0
    decreases |data| - off
  {
    if off >= |data| then Ok([])
    else
      var e :- ReadEntry(rule, wide, data, off);
      var rest :- EntriesFrom(rule, wide, data, e.1);
      Ok([e.0] + rest)
  }

  /** The entries gathered so far, put in front of what the rest of the loop reads. */
  function Prepend(acc: seq<MethodEntry>, rest: Result<seq<MethodEntry>>): Result<seq<MethodEntry>>
  {
    match rest
    case Ok(es) => Ok(acc + es)
    case Err(e) => Err(e)
  }

  /** One turn of the loop: the entry read is the first of those still to read. */
  lemma EntriesStep(rule: VBaseRule, wide: bool, data: byteseq, o: nat, acc: seq<MethodEntry>)
    requires o < |data| && ReadEntry(rule, wide, data, o).Ok?
    ensures Prepend(acc, EntriesFrom(rule, wide, data, o))
      == Prepend(acc + [ReadEntry(rule, wide, data, o).value.0],
                 EntriesFrom(rule, wide, data, ReadEntry(rule, wide, data, o).value.1))
  {
    var e := ReadEntry(rule, wide, data, o).value;
    var rest := EntriesFrom(rule, wide, data, e.1);
    if rest.Ok? {
      assert acc + ([e.0] + rest.value) == (acc + [e.0]) + rest.value;
    }
  }

  /**
   * `LfMethod.from_bytes` drained by `tuple`: the loop as written, with the
   * vbaseoff test of tpi.py, proved against `EntriesFrom`.
   */
  method MethodEntries(wide: bool, data: byteseq, off: nat) returns (r: Result<seq<MethodEntry>>)
    ensures r == EntriesFrom(AsWritten, wide, data, off)
  {
    var o := off;
    var acc: seq<MethodEntry> := [];
    assert EntriesFrom(AsWritten, wide, data, o).Ok? ==>
      [] + EntriesFrom(AsWritten, wide, data, o).value == EntriesFrom(AsWritten, wide, data, o).value;
    while o < |data|
      invariant EntriesFrom(AsWritten, wide, data, off) == Prepend(acc, EntriesFrom(AsWritten, wide, data, o))
      decreases |data| - o
    {
      var e := ReadEntry(AsWritten, wide, data, o);
      if e.Err? {
        return Err(e.error);
      }
      EntriesStep(AsWritten, wide, data, o, acc);
      acc := acc + [e.value.0];
      o := e.value.1;
    }
    assert acc + [] == acc;
    return Ok(acc);
  }

  /** An entry a compiler writes: the fields fit, and only an introducing virtual has a vbaseoff. */
  predicate EntryOk(wide: bool, e: MethodEntry)
  {
    && e.attr < 0x1_0000 && e.index < Limit(if wide then 4 else 2) && e.vbaseoff < 0x1_0000_0000
    && (!HasVBase(Intended, e.attr) ==> e.vbaseoff == 0)
  }

  function EntryFields(wide: bool, e: MethodEntry): seq<nat>
  {
    if wide then [e.attr, 0, e.index] else [e.attr, e.index]
  }

  function EncodeEntry(wide: bool, e: MethodEntry): (b: byteseq)
    requires EntryOk(wide, e)
    ensures |b| == (if wide then 8 else 4) + (if HasVBase(Intended, e.attr) then 4 else 0)
  {
    Pack(EntryFormat(wide), EntryFields(wide, e)) + (if HasVBase(Intended, e.attr) then PackU32(e.vbaseoff) else [])
  }

  function EncodeEntries(wide: bool, es: seq<MethodEntry>): byteseq
    requires forall i :: 0 <= i < |es| ==> EntryOk(wide, es[i])
  {
    if es == [] then [] else EncodeEntry(wide, es[0]) + EncodeEntries(wide, es[1..])
  }

  /** A written entry reads back, followed by the offset just past it. */
  lemma EntryRoundTrip(wide: bool, e: MethodEntry, data: byteseq, off: nat)
    requires EntryOk(wide, e) && At(data, off, EncodeEntry(wide, e))
    ensures ReadEntry(Intended, wide, data, off) == Ok((e, off + |EncodeEntry(wide, e)|))
  {
    var fixed := Pack(EntryFormat(wide), EntryFields(wide, e));
    var tail: seq<int> := if HasVBase(Intended, e.attr) then PackU32(e.vbaseoff) else [];
    AtSplitAt(data, off, fixed, tail, off + |fixed|);
    UnpackPack(EntryFormat(wide), EntryFields(wide, e), data, off);
    if HasVBase(Intended, e.attr) {
      U32At(data, off + |fixed|, e.vbaseoff);
    }
  }

  /** The first entry read, then the rest of the buffer. */
  lemma EntriesCons(wide: bool, data: byteseq, off: nat, es: seq<MethodEntry>, next: nat)
    requires off < |data| && |es| > 0 && ReadEntry(Intended, wide, data, off) == Ok((es[0], next))
    requires EntriesFrom(Intended, wide, data, next) == Ok(es[1..])
    ensures EntriesFrom(Intended, wide, data, off) == Ok(es)
  {
    HeadTail(es);
  }

  lemma HeadTail(es: seq<MethodEntry>)
    requires |es| > 0
    ensures [es[0]] + es[1..] == es
  {
  }

  /** The first of the written entries reads back; the others follow it. */
  lemma EntriesSplit(wide: bool, es: seq<MethodEntry>, data: byteseq, off: nat) returns (next: nat)
    requires |es| > 0 && forall i :: 0 <= i < |es| ==> EntryOk(wide, es[i])
    requires At(data, off, EncodeEntries(wide, es)) && |data| == off + |EncodeEntries(wide, es)|
    ensures off < |data| && ReadEntry(Intended, wide, data, off) == Ok((es[0], next))
    ensures forall i :: 0 <= i < |es[1..]| ==> EntryOk(wide, es[1..][i])
    ensures At(data, next, EncodeEntries(wide, es[1..])) && |data| == next + |EncodeEntries(wide, es[1..])|
  {
    var a, b := EncodeEntry(wide, es[0]), EncodeEntries(wide, es[1..]);
    next := off + |a|;
    AtSplitAt(data, off, a, b, next);
    EntryRoundTrip(wide, es[0], data, off);
  }

  /** Written entries that fill the buffer to its end read back. */
  lemma {:induction false} EntriesRoundTrip(wide: bool, es: seq<MethodEntry>, data: byteseq, off: nat)
    requires forall i :: 0 <= i < |es| ==> EntryOk(wide, es[i])
    requires At(data, off, EncodeEntries(wide, es)) && |data| == off + |EncodeEntries(wide, es)|
    ensures EntriesFrom(Intended, wide, data, off) == Ok(es)
    decreases |es|
  {
    if es != [] {
      var next := EntriesSplit(wide, es, data, off);
      EntriesRoundTrip(wide, es[1..], data, next);
      EntriesCons(wide, data, off, es, next);
    }
  }

  /**
   * `LfMethodList.from_bytes` as written: the buffer is cut at the
   * record's size counted from the start of the whole buffer, and the
   * vbaseoff test is the one of tpi.py.
   */
  function ReadMethodListAsWritten(data: byteseq, off: nat): (r: Result<seq<MethodEntry>>)
    ensures !CanRead(data, off, 4) ==> r == Err(StructError)
  {
    if !CanRead(data, off, 4) then Err(StructError)
    else EntriesFrom(AsWritten, PdbFieldList.Is32(U16(data, off + 2)), Slice(data, 0, U16(data, off) + 2), off + 4)
  }

  /** As written, a method list that does not start near the front of the buffer reads as empty. */
  lemma LaterListIsEmpty(data: byteseq, off: nat)
    requires CanRead(data, off, 4) && off + 2 >= U16(data, off)
    ensures ReadMethodListAsWritten(data, off) == Ok([])
  {}

  /**
   * `LfMethodList.from_bytes`, corrected: the entries end where the
   * record does, and only an introducing virtual carries a vbaseoff.
   */
  function ReadMethodList(data: byteseq, off: nat): (r: Result<seq<MethodEntry>>)
    ensures !CanRead(data, off, 4) ==> r == Err(StructError)
    ensures r.Err? ==> r.error == StructError
    ensures r.Ok? ==> forall i :: 0 <= i < |r.value| ==> !HasVBase(Intended, r.value[i].attr) ==> r.value[i].vbaseoff == 0
  {
    if !CanRead(data, off, 4) then Err(StructError)
    else EntriesFrom(Intended, PdbFieldList.Is32(U16(data, off + 2)), Slice(data, 0, off + U16(data, off) + 2), off + 4)
  }

  /** The leaf type of LF_METHODLIST in each layout. */
  function MethodListType(wide: bool): nat { if wide then 0x1206 else 0x207 }

  lemma MethodListTypeIs32(wide: bool)
    ensures PdbFieldList.Is32(MethodListType(wide)) == wide
  {}

  function EncodeMethodList(wide: bool, es: seq<MethodEntry>): byteseq
    requires forall i :: 0 <= i < |es| ==> EntryOk(wide, es[i])
    requires |EncodeEntries(wide, es)| + 2 < 0x1_0000
  {
    PackU16(|EncodeEntries(wide, es)| + 2) + PackU16(MethodListType(wide)) + EncodeEntries(wide, es)
  }

  /** The buffer cut after `e` still holds `e`. */
  lemma AtSlice(data: byteseq, off: nat, e: seq<int>, hi: nat)
    requires At(data, off, e) && hi == off + |e|
    ensures |Slice(data, 0, hi)| == hi && At(Slice(data, 0, hi), off, e)
  {
    var s := Slice(data, 0, hi);
    if hi > 0 {
      assert s[off..hi] == data[off..hi];
    }
  }

  /** A record written as its size, its leaf type and its body. */
  lemma HeadAt(data: byteseq, off: nat, size: nat, ty: nat, body: seq<int>)
    requires size < 0x1_0000 && ty < 0x1_0000 && At(data, off, PackU16(size) + PackU16(ty) + body)
    ensures CanRead(data, off, 4) && U16(data, off) == size && U16(data, off + 2) == ty && At(data, off + 4, body)
  {
    AtSplit3(data, off, PackU16(size), PackU16(ty), body, off + 2, off + 4);
    U16At(data, off, size);
    U16At(data, off + 2, ty);
  }

  /** A written method list reads back wherever it lies in the buffer, whatever follows it. */
  lemma MethodListRoundTrip(wide: bool, es: seq<MethodEntry>, data: byteseq, off: nat)
    requires forall i :: 0 <= i < |es| ==> EntryOk(wide, es[i])
    requires |EncodeEntries(wide, es)| + 2 < 0x1_0000
    requires At(data, off, EncodeMethodList(wide, es))
    ensures CanRead(data, off, 4) && U16(data, off) == |EncodeEntries(wide, es)| + 2
    ensures ReadMethodList(data, off) == Ok(es)
  {
    var body := EncodeEntries(wide, es);
    HeadAt(data, off, |body| + 2, MethodListType(wide), body);
    MethodListTypeIs32(wide);
    var end := off + U16(data, off) + 2;
    var cut := Slice(data, 0, end);
    AtSlice(data, off + 4, body, end);
    EntriesRoundTrip(wide, es, cut, off + 4);
    MethodListReads(data, off, wide, end);
  }

  /** `ReadMethodList` once the header is known. */
  lemma MethodListReads(data: byteseq, off: nat, wide: bool, end: nat)
    requires CanRead(data, off, 4) && PdbFieldList.Is32(U16(data, off + 2)) == wide && end == off + U16(data, off) + 2
    ensures ReadMethodList(data, off) == EntriesFrom(Intended, wide, Slice(data, 0, end), off + 4)
  {
    assert ReadMethodList(data, off)
        == EntriesFrom(Intended, PdbFieldList.Is32(U16(data, off + 2)), Slice(data, 0, off + U16(data, off) + 2), off + 4);
  }

  /**
   * A method list that lies further into the buffer than its own size:
   * as written it reads as empty, corrected it reads back. One 16-bit
   * entry after an 8-byte record is such a list.
   */
  lemma LaterMethodList(wide: bool, es: seq<MethodEntry>, data: byteseq, off: nat)
    requires forall i :: 0 <= i < |es| ==> EntryOk(wide, es[i])
    requires |EncodeEntries(wide, es)| + 2 < 0x1_0000 && off >= |EncodeEntries(wide, es)|
    requires At(data, off, EncodeMethodList(wide, es))
    ensures ReadMethodListAsWritten(data, off) == Ok([])
    ensures ReadMethodList(data, off) == Ok(es)
  {
    MethodListRoundTrip(wide, es, data, off);
    LaterListIsEmpty(data, off);
  }

  /** A pure virtual method (property 5) ending a list has no vbaseoff, yet as written one is read past the end. */
  lemma PureVirtualEntry(attr: nat, index: nat)
    requires attr < 0x1_0000 && index < 0x1_0000 && MProp(attr) == 5
    ensures EntriesFrom(AsWritten, false, PackU16(attr) + PackU16(index), 0) == Err(StructError)
    ensures EntriesFrom(Intended, false, PackU16(attr) + PackU16(index), 0) == Ok([MethodEntry(attr, index, 0)])
  {
    var data := PackU16(attr) + PackU16(index);
    var e := MethodEntry(attr, index, 0);
    assert EncodeEntry(false, e) == data by {
      assert PackFrom([2, 2], [attr, index], 1) == PackU16(index);
    }
    assert EncodeEntries(false, [e]) == data;
    EntriesRoundTrip(false, [e], data, 0);
    AsWrittenRule(attr);
    UnpackOne(4, data, 4);
  }

  // Argument lists

  /** The width of a count and of an index in each layout. */
  function Width(wide: bool): nat { if wide then 4 else 2 }

  /** The bytes taken by `j` indices. */
  function Stride(wide: bool, j: nat): nat { if wide then 4 * j else 2 * j }

  /** The format of `n` fields of width `w`: what `iter_unpack` reads from a buffer of `n` of them. */
  function Repeat(w: nat, n: nat): (ws: seq<nat>)
    requires IsWidth(w)
    ensures |ws| == n && IsFormat(ws)
    ensures forall i :: 0 <= i < n ==> ws[i] == w
  {
    if n == 0 then [] else [w] + Repeat(w, n - 1)
  }

  lemma {:induction false} RepeatSize(wide: bool, n: nat, i: nat)
    requires i <= n
    ensures SizeFrom(Repeat(Width(wide), n), i) == Stride(wide, n - i)
    decreases n - i
  {
    if i < n {
      RepeatSize(wide, n, i + 1);
    }
  }

  /**
   * A count after the record header, then the `data[a:b]` slice holding
   * that many indices; `iter_unpack` refuses a slice whose length is not
   * a multiple of the width.
   */
  function ReadArgs(wide: bool, data: byteseq, off: nat): (r: Result<seq<nat>>)
    ensures !CanRead(data, off, 4 + Width(wide)) ==> r == Err(StructError)
    ensures r.Err? ==> r.error == StructError
  {
    if !CanRead(data, off, 4) then Err(StructError)
    else
      var w := Width(wide);
      UnpackOne(w, data, off + 4);
      var c :- Unpack([w], data, off + 4);
      ArgsAfter(wide, data, off + 4 + w, c[0])
  }

  /** The `data[a:b]` slice of `count` indices from `start`, and what `iter_unpack` makes of it. */
  /** A buffer of `len` bytes holds whole indices. */
  predicate Whole(wide: bool, len: nat) { if wide then len % 4 == 0 else len % 2 == 0 }

  /** The number of indices in `len` bytes. */
  function Indices(wide: bool, len: nat): nat { if wide then len / 4 else len / 2 }

  function ArgsAfter(wide: bool, data: byteseq, start: nat, count: nat): (r: Result<seq<nat>>)
    ensures r.Err? ==> r.error == StructError
  {
    var args := Slice(data, start, start + Stride(wide, count));
    if !Whole(wide, |args|) then Err(StructError) else Unpack(Repeat(Width(wide), Indices(wide, |args|)), args, 0)
  }

  /** A value inside a slice is the value at the same place of the buffer. */
  lemma UAtSlice(w: nat, data: byteseq, lo: nat, hi: nat, k: nat)
    requires IsWidth(w) && CanRead(Slice(data, lo, hi), k, w)
    ensures CanRead(data, lo + k, w) && UAt(w, Slice(data, lo, hi), k) == UAt(w, data, lo + k)
  {
    var s := Slice(data, lo, hi);
    assert s[k] == data[lo + k];
    if w >= 2 {
      assert s[k + 1] == data[lo + k + 1];
    }
    if w == 4 {
      assert s[k + 2] == data[lo + k + 2] && s[k + 3] == data[lo + k + 3];
    }
  }

  /** Fields read inside a slice are the fields at the same place of the buffer. */
  lemma {:induction false} ValuesOfSlice(ws: seq<nat>, data: byteseq, lo: nat, hi: nat, k: nat, at: nat, i: nat)
    requires IsFormat(ws) && i <= |ws| && lo <= |data| && at == lo + k
    requires CanRead(Slice(data, lo, hi), k, SizeFrom(ws, i))
    ensures CanRead(data, at, SizeFrom(ws, i))
    ensures ValuesFrom(ws, Slice(data, lo, hi), k, i) == ValuesFrom(ws, data, at, i)
    decreases |ws| - i
  {
    if i < |ws| {
      var k2, at2 := k + ws[i], at + ws[i];
      var sl := Slice(data, lo, hi);
      UAtSlice(ws[i], data, lo, hi, k);
      ValuesOfSlice(ws, data, lo, hi, k2, at2, i + 1);
      ValuesFromStep(ws, sl, k, i, k2);
      ValuesFromStep(ws, data, at, i, at2);
    }
  }

  lemma StrideDiv(wide: bool, n: nat)
    ensures Whole(wide, Stride(wide, n)) && Indices(wide, Stride(wide, n)) == n
  {
  }

  lemma RepeatCalcSize(wide: bool, n: nat)
    ensures CalcSize(Repeat(Width(wide), n)) == Stride(wide, n)
  {
    RepeatSize(wide, n, 0);
  }

  /** `ReadArgs` once the count is known. */
  lemma ReadArgsUnfold(wide: bool, data: byteseq, off: nat, c: nat, start: nat)
    requires CanRead(data, off, 4 + Width(wide)) && c == UAt(Width(wide), data, off + 4) && start == off + 4 + Width(wide)
    ensures ReadArgs(wide, data, off) == ArgsAfter(wide, data, start, c)
  {
    UnpackOne(Width(wide), data, off + 4);
  }

  /** The indices read after the count: no more than it, all of them exactly when the buffer holds them. */
  lemma ArgsAfterRead(wide: bool, data: byteseq, start: nat, c: nat, r: seq<nat>)
    requires start <= |data| && ArgsAfter(wide, data, start, c) == Ok(r)
    ensures |r| <= c && (|r| == c <==> CanRead(data, start, Stride(wide, c)))
    ensures CanRead(data, start, CalcSize(Repeat(Width(wide), |r|)))
    ensures r == Values(Repeat(Width(wide), |r|), data, start)
  {
    var w := Width(wide);
    var hi := start + Stride(wide, c);
    var sl := Slice(data, start, hi);
    var n := |sl| / w;
    var ws := Repeat(w, n);
    RepeatCalcSize(wide, n);
    assert Stride(wide, n) == |sl| <= Stride(wide, c);
    assert r == Values(ws, sl, 0);
    ValuesOfSlice(ws, data, start, hi, 0, start, 0);
  }

  /**
   * What a list that reads gives: no more indices than its count, all of
   * them exactly when the buffer holds them, and they are the values
   * packed after the count.
   */
  lemma ArgsRead(wide: bool, data: byteseq, off: nat, r: seq<nat>, c: nat, start: nat)
    requires ReadArgs(wide, data, off) == Ok(r)
    requires CanRead(data, off, 4 + Width(wide)) ==> c == UAt(Width(wide), data, off + 4)
    requires start == off + 4 + Width(wide)
    ensures CanRead(data, off, 4 + Width(wide)) && c == UAt(Width(wide), data, off + 4)
    ensures |r| <= c && (|r| == c <==> CanRead(data, start, Stride(wide, c)))
    ensures CanRead(data, start, CalcSize(Repeat(Width(wide), |r|)))
    ensures r == Values(Repeat(Width(wide), |r|), data, start)
  {
    ReadArgsUnfold(wide, data, off, c, start);
    ArgsAfterRead(wide, data, start, c, r);
  }

  /** `LfArglist.from_bytes` as written: a 16-bit count and 16-bit indices in either layout. */
  function ReadArgListAsWritten(data: byteseq, off: nat): (r: Result<seq<nat>>)
    ensures !CanRead(data, off, 6) ==> r == Err(StructError)
  {
    ReadArgs(false, data, off)
  }

  /** `LfArglist.from_bytes`, corrected: the 32-bit LF_ARGLIST has a 32-bit count and 32-bit indices. */
  function ReadArgList(data: byteseq, off: nat): (r: Result<seq<nat>>)
    ensures !CanRead(data, off, 6) ==> r == Err(StructError)
  {
    if !CanRead(data, off, 4) then Err(StructError)
    else ReadArgs(PdbFieldList.Is32(U16(data, off + 2)), data, off)
  }

  /** The leaf type of LF_ARGLIST in each layout. */
  function ArgListType(wide: bool): nat { if wide then 0x1201 else 0x201 }

  lemma ArgListTypeWidth(wide: bool)
    ensures PdbFieldList.Is32(ArgListType(wide)) == wide
  {
    assert 0x1201 / 0x1000 == 1 && 0x201 / 0x1000 == 0;
  }

  predicate ArgsOk(wide: bool, args: seq<nat>)
  {
    && |args| < Limit(Width(wide)) && Fits(Repeat(Width(wide), |args|), args)
    && 2 + Width(wide) + Stride(wide, |args|) < 0x1_0000
  }

  /** The count and the indices. */
  function EncodeArgs(wide: bool, args: seq<nat>): (b: byteseq)
    requires ArgsOk(wide, args)
    ensures |b| == Width(wide) + Stride(wide, |args|)
  {
    RepeatSize(wide, |args|, 0);
    PackOne(Width(wide), |args|) + Pack(Repeat(Width(wide), |args|), args)
  }

  function EncodeArgList(wide: bool, args: seq<nat>): byteseq
    requires ArgsOk(wide, args)
  {
    PackU16(2 + Width(wide) + Stride(wide, |args|)) + PackU16(ArgListType(wide)) + EncodeArgs(wide, args)
  }

  /** `ArgsAfter` once the slice is known to hold whole indices. */
  lemma ArgsAfterUnfold(wide: bool, data: byteseq, start: nat, c: nat, hi: nat)
    requires hi == start + Stride(wide, c) && |Slice(data, start, hi)| == Stride(wide, c)
    ensures ArgsAfter(wide, data, start, c) == Unpack(Repeat(Width(wide), c), Slice(data, start, hi), 0)
  {
    StrideDiv(wide, c);
  }

  /** Packed indices after a count that matches them read back. */
  lemma ArgsAfterPacked(wide: bool, args: seq<nat>, data: byteseq, start: nat)
    requires Fits(Repeat(Width(wide), |args|), args) && At(data, start, Pack(Repeat(Width(wide), |args|), args))
    ensures ArgsAfter(wide, data, start, |args|) == Ok(args)
  {
    var n := |args|;
    var ws := Repeat(Width(wide), n);
    var packed := Pack(ws, args);
    RepeatCalcSize(wide, n);
    var hi := start + Stride(wide, n);
    SliceOfAt(data, start, packed, hi);
    UnpackPack(ws, args, Slice(data, start, hi), 0);
    ArgsAfterUnfold(wide, data, start, n, hi);
  }

  /** A written count and its indices read back. */
  lemma ArgsRoundTrip(wide: bool, args: seq<nat>, data: byteseq, off: nat)
    requires ArgsOk(wide, args) && CanRead(data, off, 4) && At(data, off + 4, EncodeArgs(wide, args))
    ensures ReadArgs(wide, data, off) == Ok(args)
  {
    var w := Width(wide);
    var ws := Repeat(w, |args|);
    AtSplitAt(data, off + 4, PackOne(w, |args|), Pack(ws, args), off + 4 + w);
    UAtPacked(w, |args|, data, off + 4);
    ReadArgsUnfold(wide, data, off, |args|, off + 4 + w);
    ArgsAfterPacked(wide, args, data, off + 4 + w);
  }

  /** A written argument list reads back in the layout its leaf type names, whatever follows it. */
  lemma ArgListRoundTrip(wide: bool, args: seq<nat>, data: byteseq, off: nat)
    requires ArgsOk(wide, args) && At(data, off, EncodeArgList(wide, args))
    ensures ReadArgList(data, off) == Ok(args)
  {
    HeadAt(data, off, 2 + Width(wide) + Stride(wide, |args|), ArgListType(wide), EncodeArgs(wide, args));
    ArgListTypeWidth(wide);
    ArgsRoundTrip(wide, args, data, off);
  }

  /** As written, a 32-bit list of one index reads the high half of its count in its place. */
  lemma WideArgList(x: nat)
    requires x < 0x1_0000_0000
    ensures ReadArgListAsWritten(EncodeArgList(true, [x]), 0) == Ok([0])
    ensures ReadArgList(EncodeArgList(true, [x]), 0) == Ok([x])
  {
    var data := EncodeArgList(true, [x]);
    assert Repeat(4, 1) == [4];
    assert ArgsOk(true, [x]);
    assert At(data, 0, data);
    ArgListRoundTrip(true, [x], data, 0);
    WideCount(x, data);
    ReadArgsUnfold(false, data, 0, 1, 6);
    NarrowAfterCount(data);
  }

  /** The 32-bit count of one index, read as two 16-bit halves. */
  lemma WideCount(x: nat, data: byteseq)
    requires x < 0x1_0000_0000 && Repeat(4, 1) == [4] && ArgsOk(true, [x]) && data == EncodeArgList(true, [x])
    ensures CanRead(data, 0, 8) && U16(data, 4) == 1 && U16(data, 6) == 0
  {
    assert At(data, 0, data);
    HeadAt(data, 0, 10, 0x1201, EncodeArgs(true, [x]));
    AtSplitAt(data, 4, PackOne(4, 1), Pack([4], [x]), 8);
    UAtPacked(4, 1, data, 4);
    SmallU32(data, 4, 6);
  }

  /** A 32-bit value below 0x10000 has its value in its low half and zero in its high half. */
  lemma SmallU32(data: byteseq, off: nat, k: nat)
    requires CanRead(data, off, 4) && k == off + 2 && U32(data, off) < 0x1_0000
    ensures U16(data, off) == U32(data, off) && U16(data, k) == 0
  {
  }

  /** Reading one 16-bit index right after a 16-bit count at offset 4 reads the next two bytes. */
  lemma NarrowAfterCount(data: byteseq)
    requires CanRead(data, 6, 2)
    ensures ArgsAfter(false, data, 6, 1) == Ok([U16(data, 6)])
  {
    var sl := Slice(data, 6, 8);
    assert |sl| == 2 && sl[0] == data[6] && sl[1] == data[7];
    ArgsAfterUnfold(false, data, 6, 1, 8);
    assert Repeat(2, 1) == [2];
    UnpackOne(2, sl, 0);
  }
}
