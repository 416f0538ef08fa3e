/**
 * The resource table of a segmented ("New Executable") image: a u16
 * alignment shift, then per resource type an 8-byte header (type id,
 * count, a reserved dword) followed by `count` 12-byte entries (offset,
 * size, flags, id, two reserved words). Offsets and sizes are in units of
 * 2**shift bytes. Reading past the table ends the walk silently; an
 * unknown predefined type or a non-ASCII name raises.
 */
module Resource {
  import opened Wrappers
  import opened Bytes
  import opened TextCodec

  /** The predefined types of WINUSER.H (RT_CURSOR .. RT_DLGINCLUDE; 0x800D is not one). */
  predicate KnownResourceType(t: int)
  {
    0x8001 <= t <= 0x800C || 0x800E <= t <= 0x8011
  }

  datatype ResType = Predefined(code: int) | NamedType(name: string)
  datatype ResId = NumId(n: int) | NamedId(name: string)
  datatype WinResource = WinResource(rtype: ResType, id: ResId, offset: nat, size: nat, flags: nat)

  /** The nested `pascal_string`: a length byte, then exactly that many ASCII bytes. */
  function PascalAt(view: byteseq, ofs: nat): (r: Result<string>)
    ensures r.Ok? ==> ofs < |view| && ofs + 1 + view[ofs] <= |view| && |r.value| == view[ofs]
    ensures r.Ok? ==> forall i :: 0 <= i < |r.value| ==> r.value[i] as int == view[ofs + 1 + i]
    ensures r.Err? ==> r.error == StructError || r.error == DecodeError
    ensures (ofs >= |view| || ofs + 1 + view[ofs] > |view|) <==> r == Err(StructError)
  {
    if ofs >= |view| || ofs + 1 + view[ofs] > |view| then Err(StructError)
    else DecodeAscii(view[ofs + 1..ofs + 1 + view[ofs]])
  }

  /** A type id with the high bit set names a predefined type; otherwise it is the offset of its name. */
  function TypeOf(view: byteseq, tid: nat): (r: Result<ResType>)
    requires tid < 0x1_0000
    ensures tid >= 0x8000 ==> (r.Ok? <==> KnownResourceType(tid)) && (r.Ok? ==> r.value == Predefined(tid))
    ensures tid >= 0x8000 && r.Err? ==> r.error == ValueError
    ensures tid < 0x8000 ==> r == (match PascalAt(view, tid) case Ok(s) => Ok(NamedType(s)) case Err(e) => Err(e))
  {
    HighBit16(tid);
    if Field(tid, 15, 1) == 1 then
      if KnownResourceType(tid) then Ok(Predefined(tid)) else Err(ValueError)
    else
      match PascalAt(view, tid)
      case Ok(s) => Ok(NamedType(s))
      case Err(e) => Err(e)
  }

  /** A record as the table stores it: offset and size scaled by the shift, flags masked to 0x70. */
  ghost predicate Scaled(rec: WinResource, shift: nat)
  {
    && rec.offset % Pow2(shift) == 0 && rec.size % Pow2(shift) == 0
    && rec.flags % 0x10 == 0 && rec.flags < 0x80
    && (rec.id.NumId? ==> 0 <= rec.id.n < 0x8000)
  }

  /** A resource id with the high bit set is the number in its low 15 bits; otherwise it is the offset of its name. */
  function IdOf(view: byteseq, rid: nat): (r: Result<ResId>)
    requires rid < 0x1_0000
    ensures rid >= 0x8000 ==> r == Ok(NumId(rid - 0x8000))
    ensures rid < 0x8000 ==> r == (match PascalAt(view, rid) case Ok(s) => Ok(NamedId(s)) case Err(e) => Err(e))
  {
    HighBit16(rid);
    if Field(rid, 15, 1) == 1 then Ok(NumId(Field(rid, 0, 15)))
    else
      match PascalAt(view, rid)
      case Ok(s) => Ok(NamedId(s))
      case Err(e) => Err(e)
  }

  /** One 12-byte entry at `off`: offset, size, flags and id words; the offset and size scaled, the flags masked. */
  function Entry(view: byteseq, shift: nat, ty: ResType, off: nat): (r: Result<WinResource>)
    ensures !CanRead(view, off, 8) ==> r == Err(StructError)
    ensures CanRead(view, off, 8) ==> (r.Ok? <==> IdOf(view, U16(view, off + 6)).Ok?)
    ensures r.Ok? ==> CanRead(view, off, 8) && r.value == WinResource(ty, IdOf(view, U16(view, off + 6)).value,
      U16(view, off) * Pow2(shift), U16(view, off + 2) * Pow2(shift), Field(U16(view, off + 4), 4, 3) * 0x10)
    ensures r.Err? ==> r.error == StructError || r.error == DecodeError
  {
    if !CanRead(view, off, 8) then Err(StructError)
    else
      match IdOf(view, U16(view, off + 6))
      case Err(e) => Err(e)
      case Ok(i) =>
        Ok(WinResource(ty, i, U16(view, off) * Pow2(shift), U16(view, off + 2) * Pow2(shift), Field(U16(view, off + 4), 4, 3) * 0x10))
  }

  /** An entry read is scaled and masked. */
  lemma EntryScaled(view: byteseq, shift: nat, ty: ResType, off: nat)
    requires Entry(view, shift, ty, off).Ok?
    ensures Scaled(Entry(view, shift, ty, off).value, shift)
  {
    var rec := Entry(view, shift, ty, off).value;
    MultipleMod(U16(view, off), Pow2(shift));
    MultipleMod(U16(view, off + 2), Pow2(shift));
    MultipleMod(Field(U16(view, off + 4), 4, 3), 0x10);
    assert Pow2(3) == 8;
  }

  /** What the entries of one type give: the records, and where the walk goes on (None once it stopped). */
  datatype Run = Run(recs: seq<WinResource>, next: Option<nat>, err: Option<Error>)

  /** The inner `for _ in range(count)` loop from `off`. */
  function Entries(view: byteseq, shift: nat, ty: ResType, off: nat, k: nat): (r: Run)
    ensures r.err.Some? ==> r.err.value == DecodeError
    decreases k
  {
    if k == 0 then Run([], Some(off), None)
    else
      match Entry(view, shift, ty, off)
      case Err(e) => Run([], None, if e == StructError then None else Some(e))
      case Ok(rec) =>
        var rest := Entries(view, shift, ty, off + 12, k - 1);
        Run([rec] + rest.recs, rest.next, rest.err)
  }

  /** A run that goes on has read all `k` entries, 12 bytes each. */
  lemma {:induction false} EntriesNext(view: byteseq, shift: nat, ty: ResType, off: nat, k: nat)
    ensures var r := Entries(view, shift, ty, off, k);
      r.next.Some? ==> |r.recs| == k && r.next.value == off + 12 * k && r.err.None?
    decreases k
  {
    if k > 0 && Entry(view, shift, ty, off).Ok? {
      EntriesNext(view, shift, ty, off + 12, k - 1);
    }
  }

  datatype WalkOut = WalkOut(recs: seq<WinResource>, err: Option<Error>)

  /**
   * The outer loop from `off`: a zero type id or the end of the table ends
   * it; a struct.error ends it silently, so the only exceptions that come
   * out are ValueError and UnicodeDecodeError.
   */
  function Table(view: byteseq, shift: nat, off: nat): (w: WalkOut)
    ensures w.err.Some? ==> w.err.value == ValueError || w.err.value == DecodeError
    ensures CanRead(view, off, 4) && U16(view, off) == 0 ==> w == WalkOut([], None)
    decreases |view| - off
  {
    if off >= |view| || !CanRead(view, off, 4) || U16(view, off) == 0 then WalkOut([], None)
    else
      match TypeOf(view, U16(view, off))
      case Err(e) => WalkOut([], if e == StructError then None else Some(e))
      case Ok(ty) =>
        var run := Entries(view, shift, ty, off + 8, U16(view, off + 2));
        if run.next.None? then WalkOut(run.recs, run.err)
        else
          EntriesNext(view, shift, ty, off + 8, U16(view, off + 2));
          var rest := Table(view, shift, run.next.value);
          WalkOut(run.recs + rest.recs, rest.err)
  }

  /** `ne_resource_table`: the slice between ne_rsrctab and ne_restab, both relative to the NE header. */
  function ResourceTable(data: byteseq, lfanew: nat, rsrctab: nat, restab: nat): (w: WalkOut)
  {
    var view := Slice(data, lfanew + rsrctab, lfanew + restab);
    // the alignment shift is read outside the `try`, so a table too short for it raises
    if |view| < 2 then WalkOut([], Some(StructError))
    else Table(view, U16(view, 0), 2)
  }

  /** `pre` yielded ahead of a run. */
  function Prepend(pre: seq<WinResource>, r: Run): Run
  {
    Run(pre + r.recs, r.next, r.err)
  }

  /** One more turn of the inner loop, for an entry that reads. */
  lemma EntriesStep(view: byteseq, shift: nat, ty: ResType, o: nat, k: nat, pre: seq<WinResource>)
    requires k > 0 && Entry(view, shift, ty, o).Ok?
    ensures Prepend(pre, Entries(view, shift, ty, o, k))
      == Prepend(pre + [Entry(view, shift, ty, o).value], Entries(view, shift, ty, o + 12, k - 1))
  {
    var rest := Entries(view, shift, ty, o + 12, k - 1);
    assert pre + ([Entry(view, shift, ty, o).value] + rest.recs) == pre + [Entry(view, shift, ty, o).value] + rest.recs;
  }

  /** An entry that does not read ends the loop: silently on a struct.error. */
  lemma EntriesFail(view: byteseq, shift: nat, ty: ResType, o: nat, k: nat, pre: seq<WinResource>)
    requires k > 0 && Entry(view, shift, ty, o).Err?
    ensures Prepend(pre, Entries(view, shift, ty, o, k))
      == Run(pre, None, if Entry(view, shift, ty, o).error == StructError then None else Some(Entry(view, shift, ty, o).error))
  {
    assert pre + [] == pre;
  }

  lemma EntriesDone(view: byteseq, shift: nat, ty: ResType, o: nat, pre: seq<WinResource>)
    ensures Prepend(pre, Entries(view, shift, ty, o, 0)) == Run(pre, Some(o), None)
  {
    assert pre + [] == pre;
  }

  /** The inner loop: the entries of one type, read one `Entry` per turn. */
  method ReadEntries(view: byteseq, shift: nat, ty: ResType, off: nat, count: nat)
    returns (batch: seq<WinResource>, next: Option<nat>, err: Option<Error>)
    ensures Run(batch, next, err) == Entries(view, shift, ty, off, count)
  {
    var o: nat := off;
    batch := [];
    var j := 0;
    assert Prepend([], Entries(view, shift, ty, off, count)) == Entries(view, shift, ty, off, count);
    while j < count
      invariant 0 <= j <= count
      invariant Entries(view, shift, ty, off, count) == Prepend(batch, Entries(view, shift, ty, o, count - j))
    {
      var e := Entry(view, shift, ty, o);
      if e.Err? {
        EntriesFail(view, shift, ty, o, count - j, batch);
        return batch, None, if e.error == StructError then None else Some(e.error);
      }
      EntriesStep(view, shift, ty, o, count - j, batch);
      batch := batch + [e.value];
      o := o + 12;
      j := j + 1;
    }
    EntriesDone(view, shift, ty, o, batch);
    return batch, Some(o), None;
  }

  /** The generator: the outer loop over type headers, each followed by its entries. */
  method NeResourceTable(data: byteseq, lfanew: nat, rsrctab: nat, restab: nat)
    returns (recs: seq<WinResource>, err: Option<Error>)
    ensures WalkOut(recs, err) == ResourceTable(data, lfanew, rsrctab, restab)
  {
    var view := Slice(data, lfanew + rsrctab, lfanew + restab);
    if |view| < 2 {
      return [], Some(StructError);
    }
    var shift := U16(view, 0);
    var off: nat := 2;
    recs, err := [], None;
    assert recs + Table(view, shift, off).recs == Table(view, shift, off).recs;
    while off < |view|
      invariant ResourceTable(data, lfanew, rsrctab, restab) == WalkOut(recs + Table(view, shift, off).recs, Table(view, shift, off).err)
      decreases |view| - off
    {
      if !CanRead(view, off, 4) {
        assert recs + [] == recs;
        return;
      }
      var tid, count := U16(view, off), U16(view, off + 2);
      if tid == 0 {
        assert recs + [] == recs;
        return;
      }
      var ty := TypeOf(view, tid);
      if ty.Err? {
        assert recs + [] == recs;
        return recs, if ty.error == StructError then None else Some(ty.error);
      }
      var batch, next, e := ReadEntries(view, shift, ty.value, off + 8, count);
      EntriesNext(view, shift, ty.value, off + 8, count);
      if next.None? {
        return recs + batch, e;
      }
      assert recs + (batch + Table(view, shift, next.value).recs) == (recs + batch) + Table(view, shift, next.value).recs;
      recs := recs + batch;
      off := next.value;
    }
    assert recs + [] == recs;
  }

  /** Every record the entries yield is scaled and masked. */
  lemma {:induction false} EntriesScaled(view: byteseq, shift: nat, ty: ResType, off: nat, k: nat)
    ensures forall i :: 0 <= i < |Entries(view, shift, ty, off, k).recs| ==> Scaled(Entries(view, shift, ty, off, k).recs[i], shift)
    decreases k
  {
    if k > 0 && Entry(view, shift, ty, off).Ok? {
      EntryScaled(view, shift, ty, off);
      EntriesScaled(view, shift, ty, off + 12, k - 1);
    }
  }

  /** Every record of the table has its offset and size a multiple of 2**shift and its flags within 0x70. */
  lemma {:induction false} TableScaled(view: byteseq, shift: nat, off: nat)
    ensures forall i :: 0 <= i < |Table(view, shift, off).recs| ==> Scaled(Table(view, shift, off).recs[i], shift)
    decreases |view| - off
  {
    if off < |view| && CanRead(view, off, 4) && U16(view, off) != 0 && TypeOf(view, U16(view, off)).Ok? {
      var ty := TypeOf(view, U16(view, off)).value;
      var run := Entries(view, shift, ty, off + 8, U16(view, off + 2));
      EntriesScaled(view, shift, ty, off + 8, U16(view, off + 2));
      EntriesNext(view, shift, ty, off + 8, U16(view, off + 2));
      if run.next.Some? {
        TableScaled(view, shift, run.next.value);
      }
    }
  }

  /** Each entry read consumes 12 bytes, at least 8 of them inside the table. */
  lemma {:induction false} EntriesBound(view: byteseq, shift: nat, ty: ResType, off: nat, k: nat)
    requires off <= |view| + 4
    ensures Entries(view, shift, ty, off, k).next.None? ==> 12 * |Entries(view, shift, ty, off, k).recs| <= |view| + 4 - off
    ensures Entries(view, shift, ty, off, k).next.Some? && Entries(view, shift, ty, off, k).recs != [] ==>
      Entries(view, shift, ty, off, k).next.value <= |view| + 4
    decreases k
  {
    if k > 0 && Entry(view, shift, ty, off).Ok? {
      EntriesBound(view, shift, ty, off + 12, k - 1);
    }
  }

  /** The table yields at most one record per 12 bytes after `off`. */
  lemma {:induction false} TableBound(view: byteseq, shift: nat, off: nat)
    requires off <= |view|
    ensures 12 * |Table(view, shift, off).recs| <= |view| - off
    decreases |view| - off
  {
    if off < |view| && CanRead(view, off, 4) && U16(view, off) != 0 && TypeOf(view, U16(view, off)).Ok? {
      var ty := TypeOf(view, U16(view, off)).value;
      var run := Entries(view, shift, ty, off + 8, U16(view, off + 2));
      EntriesBound(view, shift, ty, off + 8, U16(view, off + 2));
      EntriesNext(view, shift, ty, off + 8, U16(view, off + 2));
      if run.next.Some? && run.next.value <= |view| {
        TableBound(view, shift, run.next.value);
      }
    }
  }

  /** A predefined type id outside WINUSER.H's list raises ValueError with nothing yielded. */
  lemma UnknownTypeRaises(view: byteseq, shift: nat, off: nat)
    requires CanRead(view, off, 4) && U16(view, off) >= 0x8000 && !KnownResourceType(U16(view, off))
    ensures Table(view, shift, off) == WalkOut([], Some(ValueError))
  {}
}
