/**
 * The CodeView record walker: a buffer is a run of records, each headed by
 * a 16-bit size (not counting itself) and a 16-bit type, optionally padded
 * to 4-byte boundaries. The walker yields (offset, type, size) per record;
 * a generator, so the records yielded before an exception are kept.
 */
module CodeView {
  import opened Wrappers
  import opened Bytes

  datatype CvRecord = CvRecord(offset: nat, recType: int, size: nat)

  /** The REFSYM types whose declared size leaves out a trailing Pascal name. */
  predicate HasTrailingName(t: int) { t == 0x400 || t == 0x401 || t == 0x403 }

  /** The realignment at the top of the loop. */
  function Realign(off: nat, align: bool): (o: nat)
    ensures off <= o < off + 4
    ensures align ==> o % 4 == 0
    ensures !align ==> o == off
  {
    if align && off % 4 != 0 then off + 4 - off % 4 else off
  }

  /** What one turn of the loop does. */
  datatype StepOut = Stop | Fail(error: Error) | Yield(rec: CvRecord, next: nat)

  /** `rec` is what the header at its offset declares, its trailing name included. */
  ghost predicate RecordAt(buf: byteseq, rec: CvRecord)
  {
    && CanRead(buf, rec.offset, 4) && U16(buf, rec.offset) != 0
    && rec.recType == U16(buf, rec.offset + 2)
    && var base := U16(buf, rec.offset) + 2;
    if HasTrailingName(rec.recType) then rec.offset + base < |buf| && rec.size == base + buf[rec.offset + base] + 1
    else rec.size == base
  }

  function Step(buf: byteseq, align: bool, off: nat): (s: StepOut)
    requires off < |buf|
    ensures s.Yield? ==> s.rec.offset == Realign(off, align) && s.next == s.rec.offset + s.rec.size
    ensures s.Yield? ==> RecordAt(buf, s.rec)
    ensures s.Stop? <==> CanRead(buf, Realign(off, align), 4) && U16(buf, Realign(off, align)) == 0
  {
    var o := Realign(off, align);
    if !CanRead(buf, o, 4) then Fail(StructError)
    else
      var declared := U16(buf, o);
      var ty := U16(buf, o + 2);
      if declared == 0 then Stop
      else
        var size := declared + 2;
        if HasTrailingName(ty) then
          if o + size >= |buf| then Fail(IndexError)
          else Yield(CvRecord(o, ty, size + buf[o + size] + 1), o + size + buf[o + size] + 1)
        else Yield(CvRecord(o, ty, size), o + size)
  }

  /** The records from `off` on, and the exception that ended the walk, if any. */
  datatype WalkOut = WalkOut(recs: seq<CvRecord>, err: Option<Error>)

  function Walk(buf: byteseq, align: bool, off: nat): (w: WalkOut)
    decreases |buf| - off
  {
    if off >= |buf| then WalkOut([], None)
    else
      match Step(buf, align, off)
      case Stop => WalkOut([], None)
      case Fail(e) => WalkOut([], Some(e))
      case Yield(rec, next) =>
        var rest := Walk(buf, align, next);
        WalkOut([rec] + rest.recs, rest.err)
  }

  /** `CodeViewRecord.from_bytes`: the loop, one `Step` per turn. */
  method FromBytes(buf: byteseq, align: bool) returns (recs: seq<CvRecord>, err: Option<Error>)
    ensures WalkOut(recs, err) == Walk(buf, align, 0)
  {
    recs, err := [], None;
    var off: nat := 0;
    assert recs + Walk(buf, align, off).recs == Walk(buf, align, off).recs;
    while off < |buf|
      invariant Walk(buf, align, 0) == WalkOut(recs + Walk(buf, align, off).recs, Walk(buf, align, off).err)
      decreases |buf| - off
    {
      var s := Step(buf, align, off);
      match s
      case Stop =>
        assert recs + [] == recs;
        return;
      case Fail(e) =>
        assert recs + [] == recs;
        return recs, Some(e);
      case Yield(rec, next) =>
        assert recs + [rec] + Walk(buf, align, next).recs == recs + ([rec] + Walk(buf, align, next).recs);
        recs := recs + [rec];
        off := next;
    }
    assert recs + [] == recs;
  }

  /** Each record starts where the one before it ends, realigned. */
  ghost predicate Chained(recs: seq<CvRecord>, align: bool)
  {
    forall i :: 0 <= i && i + 1 < |recs| ==> recs[i + 1].offset == Realign(recs[i].offset + recs[i].size, align)
  }

  /** The records walked from `off` start at or after it, and each is what its header declares. */
  lemma {:induction false} WalkRecords(buf: byteseq, align: bool, off: nat)
    ensures forall i :: 0 <= i < |Walk(buf, align, off).recs| ==>
      off <= Walk(buf, align, off).recs[i].offset && RecordAt(buf, Walk(buf, align, off).recs[i])
    decreases |buf| - off
  {
    if off < |buf| {
      var s := Step(buf, align, off);
      if s.Yield? {
        WalkRecords(buf, align, s.next);
        var rest := Walk(buf, align, s.next).recs;
        var recs := Walk(buf, align, off).recs;
        assert recs == [s.rec] + rest;
        forall i | 0 <= i < |recs| ensures off <= recs[i].offset && RecordAt(buf, recs[i]) {
          if i > 0 {
            assert recs[i] == rest[i - 1];
          }
        }
      }
    }
  }

  /** Each record walked starts where the previous one ends, realigned. */
  lemma {:induction false} WalkChained(buf: byteseq, align: bool, off: nat)
    ensures Chained(Walk(buf, align, off).recs, align)
    decreases |buf| - off
  {
    if off < |buf| {
      var s := Step(buf, align, off);
      if s.Yield? {
        WalkChained(buf, align, s.next);
        var rest := Walk(buf, align, s.next).recs;
        var recs := Walk(buf, align, off).recs;
        assert recs == [s.rec] + rest;
        if |rest| > 0 {
          assert s.next < |buf|;
          assert rest[0] == Step(buf, align, s.next).rec;
        }
        forall i | 0 <= i && i + 1 < |recs|
          ensures recs[i + 1].offset == Realign(recs[i].offset + recs[i].size, align)
        {
          if i > 0 {
            assert recs[i] == rest[i - 1] && recs[i + 1] == rest[i];
          }
        }
      }
    }
  }

  /** With `align` every record offset is a multiple of 4; offsets strictly increase. */
  lemma WalkAligned(buf: byteseq, align: bool)
    ensures var recs := Walk(buf, align, 0).recs;
      && (align ==> forall i :: 0 <= i < |recs| ==> recs[i].offset % 4 == 0)
      && (forall i :: 0 <= i && i + 1 < |recs| ==> recs[i].offset < recs[i + 1].offset)
  {
    WalkRecords(buf, align, 0);
    WalkChained(buf, align, 0);
    var recs := Walk(buf, align, 0).recs;
    forall i | 0 <= i < |recs| && align ensures recs[i].offset % 4 == 0 {
      if i > 0 {
        assert recs[i].offset == Realign(recs[i - 1].offset + recs[i - 1].size, align);
      } else {
        assert recs[0] == Step(buf, align, 0).rec;
      }
    }
    forall i | 0 <= i && i + 1 < |recs| ensures recs[i].offset < recs[i + 1].offset {
      assert RecordAt(buf, recs[i]);
    }
  }
}
