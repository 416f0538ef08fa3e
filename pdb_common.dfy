/**
 * The CodeView field readers shared by the PDB decoders: 4-byte alignment,
 * the "numeric leaf" (a 16-bit value below 0x8000, or a 0x80xx tag followed
 * by a value of the tag's width), the length-prefixed string and the
 * NUL-terminated string. Offsets are threaded through every reader: each
 * returns the value it read and the offset just past it.
 */
module PdbCommon {
  import opened Wrappers
  import opened Bytes
  import opened TextCodec

  /** `align_to`: the least multiple of `align` at or above `offset`. */
  function AlignTo(offset: int, align: int): (r: int)
    requires align > 0
    ensures r % align == 0
    ensures offset <= r < offset + align
  {
    AlignFacts(offset, align);
    offset + (-offset) % align
  }

  lemma AlignFacts(offset: int, align: int)
    requires align > 0
    ensures (offset + (-offset) % align) % align == 0
  {
    var k := (-offset) / align;
    assert -offset == k * align + (-offset) % align;
    assert offset + (-offset) % align == (-k) * align;
    MultipleMod(-k, align);
  }

  /** Aligning an aligned offset leaves it where it is. */
  lemma AlignIdempotent(offset: int, align: int)
    requires align > 0
    ensures AlignTo(AlignTo(offset, align), align) == AlignTo(offset, align)
  {
    var r := AlignTo(offset, align);
    var k := r / align;
    assert r == k * align + r % align;
    assert r == k * align;
    assert -r == (-k) * align;
    MultipleMod(-k, align);
  }

  /** The numeric-leaf tags (PACKED_VALUE_MAP): LF_CHAR .. LF_REAL64. */
  datatype NumericLeaf = LfChar | LfShort | LfUShort | LfLong | LfULong | LfReal32 | LfReal64

  function NumericTag(x: int): (r: Option<NumericLeaf>)
    ensures r.Some? <==> 0x8000 <= x <= 0x8006
  {
    if x == 0x8000 then Some(LfChar)
    else if x == 0x8001 then Some(LfShort)
    else if x == 0x8002 then Some(LfUShort)
    else if x == 0x8003 then Some(LfLong)
    else if x == 0x8004 then Some(LfULong)
    else if x == 0x8005 then Some(LfReal32)
    else if x == 0x8006 then Some(LfReal64)
    else None
  }

  function TagOf(l: NumericLeaf): (x: int)
    ensures NumericTag(x) == Some(l)
  {
    match l
    case LfChar => 0x8000
    case LfShort => 0x8001
    case LfUShort => 0x8002
    case LfLong => 0x8003
    case LfULong => 0x8004
    case LfReal32 => 0x8005
    case LfReal64 => 0x8006
  }

  /**
   * `calcsize` of the tag's format; `longBytes` is the width of "l"/"L",
   * 4 with the standard-size "<" prefix.
   */
  function Width(l: NumericLeaf, longBytes: nat): nat
  {
    match l
    case LfChar => 1
    case LfShort => 2
    case LfUShort => 2
    case LfLong => longBytes
    case LfULong => longBytes
    case LfReal32 => 4
    case LfReal64 => 8
  }

  /** A decoded numeric leaf; floating-point values are kept as their raw bytes. */
  datatype Numeric = Int(i: int) | Real(raw: byteseq)

  function I64(data: byteseq, off: nat): (r: int)
    requires CanRead(data, off, 8)
    ensures -0x8000_0000_0000_0000 <= r < 0x8000_0000_0000_0000
  {
    var u := U64(data, off);
    if u < 0x8000_0000_0000_0000 then u else u - 0x1_0000_0000_0000_0000
  }

  /** The value of the tag's format at `off`, little-endian. */
  function NumericAt(l: NumericLeaf, longBytes: nat, data: byteseq, off: nat): (v: Numeric)
    requires longBytes == 4 || longBytes == 8
    requires CanRead(data, off, Width(l, longBytes))
  {
    match l
    case LfChar => Int(I8(data, off))
    case LfShort => Int(I16(data, off))
    case LfUShort => Int(U16(data, off))
    case LfLong => if longBytes == 4 then Int(I32(data, off)) else Int(I64(data, off))
    case LfULong => if longBytes == 4 then Int(U32(data, off)) else Int(U64(data, off))
    case LfReal32 => Real(data[off..off + 4])
    case LfReal64 => Real(data[off..off + 8])
  }

  /** `read_packed_value` with the width of "l"/"L" as a parameter. */
  function ReadPackedWith(longBytes: nat, data: byteseq, off: nat): (r: Result<(Numeric, nat)>)
    requires longBytes == 4 || longBytes == 8
    ensures r.Ok? ==> r.value.1 <= |data|
    ensures r.Ok? && CanRead(data, off, 2) && U16(data, off) < 0x8000 ==> r.value == (Int(U16(data, off)), off + 2)
    ensures r.Ok? && CanRead(data, off, 2) && U16(data, off) >= 0x8000 ==>
      && NumericTag(U16(data, off)).Some?
      && r.value.1 == off + 2 + Width(NumericTag(U16(data, off)).value, longBytes)
    ensures !CanRead(data, off, 2) ==> r == Err(StructError)
    ensures CanRead(data, off, 2) && U16(data, off) > 0x8006 ==> r == Err(AssertionError)
  {
    if !CanRead(data, off, 2) then Err(StructError)
    else
      var x := U16(data, off);
      if x < 0x8000 then Ok((Int(x), off + 2))
      else
        match NumericTag(x)
        case None => Err(AssertionError)
        case Some(l) =>
          if !CanRead(data, off + 2, Width(l, longBytes)) then Err(StructError)
          else Ok((NumericAt(l, longBytes, data, off + 2), off + 2 + Width(l, longBytes)))
  }

  /** `read_packed_value` of reccmp/formats/pdb: every format is standard-size ("<"). */
  function ReadPacked(data: byteseq, off: nat): (r: Result<(Numeric, nat)>)
    ensures r.Ok? ==> off + 2 <= r.value.1 <= off + 10 && r.value.1 <= |data|
    ensures r.Ok? && U16(data, off) < 0x8000 ==> r.value == (Int(U16(data, off)), off + 2)
  {
    ReadPackedWith(4, data, off)
  }

  /**
   * An encoder for integer numeric leaves: the shortest form the reader
   * accepts. It is the reference the reader is checked against.
   */
  function EncodeNumeric(n: int): (b: byteseq)
    requires -0x8000_0000 <= n < 0x1_0000_0000
  {
    if 0 <= n < 0x8000 then PackU16(n)
    else if -0x80 <= n < 0 then PackU16(0x8000) + [n + 0x100]
    else if -0x8000 <= n < 0 then PackU16(0x8001) + PackU16(n + 0x1_0000)
    else if 0 <= n < 0x1_0000 then PackU16(0x8002) + PackU16(n)
    else if -0x8000_0000 <= n < 0 then PackU16(0x8003) + PackU32(n + 0x1_0000_0000)
    else PackU16(0x8004) + PackU32(n)
  }

  lemma U16Prefix(a: byteseq, rest: byteseq)
    requires |a| >= 2
    ensures IsBytes(a + rest) && U16(a + rest, 0) == U16(a, 0)
  {
    assert (a + rest)[0] == a[0] && (a + rest)[1] == a[1];
  }

  lemma U32Prefix(a: byteseq, rest: byteseq, off: nat)
    requires off + 4 <= |a|
    ensures IsBytes(a + rest) && U32(a + rest, off) == U32(a, off)
  {
    var s := a + rest;
    assert s[off] == a[off] && s[off + 1] == a[off + 1] && s[off + 2] == a[off + 2] && s[off + 3] == a[off + 3];
  }

  lemma U16At2(x: int, y: int)
    requires 0 <= x < 0x1_0000 && 0 <= y < 0x1_0000
    ensures U16(PackU16(x) + PackU16(y), 2) == y
  {
    var s := PackU16(x) + PackU16(y);
    assert s[2..4] == PackU16(y);
    assert s[2] == PackU16(y)[0] && s[3] == PackU16(y)[1];
  }

  lemma U32At2(x: int, y: int)
    requires 0 <= x < 0x1_0000 && 0 <= y < 0x1_0000_0000
    ensures U32(PackU16(x) + PackU32(y), 2) == y
  {
    var s := PackU16(x) + PackU32(y);
    var w := PackU32(y);
    assert s[2] == w[0] && s[3] == w[1] && s[4] == w[2] && s[5] == w[3];
  }

  /** Every integer an encoder writes is read back, and the offset ends just past it. */
  lemma {:induction false} PackedRoundTrip(n: int, rest: byteseq)
    requires -0x8000_0000 <= n < 0x1_0000_0000
    ensures ReadPacked(EncodeNumeric(n) + rest, 0) == Ok((Int(n), |EncodeNumeric(n)|))
  {
    var b := EncodeNumeric(n);
    var s := b + rest;
    U16Prefix(b, rest);
    if 0 <= n < 0x8000 {
    } else if -0x80 <= n < 0 {
      assert s[2] == n + 0x100;
      Pow2Values();
    } else if -0x8000 <= n < 0 {
      U16At2(0x8001, n + 0x1_0000);
      assert s[2] == b[2] && s[3] == b[3];
      Pow2Values();
    } else if 0 <= n < 0x1_0000 {
      U16At2(0x8002, n);
      assert s[2] == b[2] && s[3] == b[3];
    } else if -0x8000_0000 <= n < 0 {
      U32At2(0x8003, n + 0x1_0000_0000);
      U32Prefix(b, rest, 2);
      Pow2Values();
    } else {
      U32At2(0x8004, n);
      U32Prefix(b, rest, 2);
    }
  }

  /** `read_pascal_string`: a length byte, then that many ASCII bytes (the slice stops at the end of the buffer). */
  function ReadPascalString(data: byteseq, off: nat): (r: Result<(string, nat)>)
    ensures off >= |data| ==> r == Err(IndexError)
    ensures r.Ok? ==> off < |data| && r.value.1 == off + 1 + data[off] && |r.value.0| <= data[off]
    ensures r.Ok? && off + 1 + data[off] <= |data| ==>
      |r.value.0| == data[off] && forall i :: 0 <= i < data[off] ==> r.value.0[i] as int == data[off + 1 + i]
  {
    if off >= |data| then Err(IndexError)
    else
      var n := data[off];
      var hi := if off + 1 + n <= |data| then off + 1 + n else |data|;
      match DecodeAscii(data[off + 1..hi])
      case Err(e) => Err(e)
      case Ok(s) => Ok((s, off + 1 + n))
  }

  predicate IsAscii(s: string) { forall i :: 0 <= i < |s| ==> s[i] as int < 0x80 }

  /** The length-prefixed form of an ASCII string shorter than 256 characters. */
  function EncodePascal(s: string): (b: byteseq)
    requires IsAscii(s) && |s| < 0x100
    ensures |b| == 1 + |s|
  {
    [|s|] + EncodeLatin1(s)
  }

  lemma PascalRoundTrip(pre: byteseq, s: string, post: byteseq)
    requires IsAscii(s) && |s| < 0x100
    ensures ReadPascalString(pre + EncodePascal(s) + post, |pre|) == Ok((s, |pre| + 1 + |s|))
  {
    var data := pre + EncodePascal(s) + post;
    assert data[|pre|] == |s|;
    assert data[|pre| + 1..|pre| + 1 + |s|] == EncodeLatin1(s);
    assert DecodeLatin1(EncodeLatin1(s)) == s;
  }

  /** Where `read_sz_string` stops: the first NUL at or after `off`, if any. */
  function NulFrom(data: byteseq, off: nat): (r: Option<nat>)
    ensures r.Some? ==> off <= r.value < |data| && data[r.value] == 0
    ensures r.Some? ==> forall j :: off <= j < r.value ==> data[j] != 0
    ensures r.None? ==> forall j :: off <= j < |data| ==> data[j] != 0
    decreases |data| - off
  {
    if off >= |data| then None
    else if data[off] == 0 then Some(off)
    else NulFrom(data, off + 1)
  }

  /** What `read_sz_string` returns: the ASCII text before the first NUL and the offset past the NUL. */
  function SzString(data: byteseq, off: nat): (r: Result<(string, nat)>)
    ensures r.Ok? ==> NulFrom(data, off).Some? && r.value.1 == NulFrom(data, off).value + 1 && r.value.1 == off + |r.value.0| + 1
  {
    match NulFrom(data, off)
    case None => Err(IndexError)
    case Some(nul) =>
      var text := DecodeAscii(data[off..nul]);
      if text.Err? then Err(DecodeError) else Ok((text.value, nul + 1))
  }

  /**
   * `read_sz_string`: advances byte by byte to the first NUL (an IndexError
   * when there is none) and decodes the bytes before it as ASCII.
   */
  method ReadSzString(data: byteseq, off: nat) returns (r: Result<(string, nat)>)
    ensures r == SzString(data, off)
    ensures NulFrom(data, off).None? ==> r == Err(IndexError)
    ensures NulFrom(data, off).Some? ==>
      var nul := NulFrom(data, off).value;
      && (DecodeAscii(data[off..nul]).Err? ==> r == Err(DecodeError))
      && (DecodeAscii(data[off..nul]).Ok? ==> r == Ok((DecodeAscii(data[off..nul]).value, nul + 1)))
  {
    var i := off;
    while true
      invariant off <= i
      invariant forall j :: off <= j < i ==> j < |data| && data[j] != 0
      invariant NulFrom(data, off) == NulFrom(data, i)
      decreases |data| - i
    {
      if i >= |data| {
        return Err(IndexError);
      }
      if data[i] == 0 {
        break;
      }
      i := i + 1;
    }
    var text := DecodeAscii(data[off..i]);
    if text.Err? {
      return Err(DecodeError);
    }
    return Ok((text.value, i + 1));
  }

  /** The NUL-terminated form of an ASCII string without NUL. */
  function EncodeSz(s: string): (b: byteseq)
    requires IsAscii(s)
    ensures |b| == |s| + 1
  {
    EncodeLatin1(s) + [0]
  }

  lemma SzRoundTrip(pre: byteseq, s: string, post: byteseq)
    requires IsAscii(s) && forall i :: 0 <= i < |s| ==> s[i] != 0 as char
    ensures NulFrom(pre + EncodeSz(s) + post, |pre|) == Some(|pre| + |s|)
    ensures DecodeAscii((pre + EncodeSz(s) + post)[|pre|..|pre| + |s|]) == Ok(s)
  {
    var data := pre + EncodeSz(s) + post;
    assert data[|pre| + |s|] == 0;
    forall j | |pre| <= j < |pre| + |s| ensures data[j] != 0 {
      assert data[j] == s[j - |pre|] as int;
    }
    NulFromFirst(data, |pre|, |pre| + |s|);
    assert data[|pre|..|pre| + |s|] == EncodeLatin1(s);
    assert DecodeLatin1(EncodeLatin1(s)) == s;
  }

  lemma {:induction false} NulFromFirst(data: byteseq, off: nat, k: nat)
    requires off <= k < |data| && data[k] == 0 && forall j :: off <= j < k ==> data[j] != 0
    ensures NulFrom(data, off) == Some(k)
    decreases k - off
  {
    if off < k {
      NulFromFirst(data, off + 1, k);
    }
  }
}
