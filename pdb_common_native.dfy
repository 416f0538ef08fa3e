/**
 * The older copy of the numeric-leaf reader (reccmp/isledecomp/formats/pdb).
 * Its tag formats carry no "<" prefix, so `struct` uses the host's native
 * sizes: "l"/"L" are 8 bytes on an LP64 host (Linux, macOS) and 4 on an
 * LLP64 host (Windows). The host's byte order is taken to be little-endian.
 * Its `read_pascal_string` is the same code as PdbCommon.ReadPascalString.
 */
module PdbCommonNative {
  import opened Wrappers
  import opened Bytes
  import opened PdbCommon

  datatype Host = LP64 | LLP64

  function LongBytes(h: Host): (n: nat)
    ensures n == 4 || n == 8
  {
    match h
    case LP64 => 8
    case LLP64 => 4
  }

  /** `read_packed_value` with native sizes. */
  function ReadPackedNative(h: Host, data: byteseq, off: nat): (r: Result<(Numeric, nat)>)
    ensures r.Ok? ==> off + 2 <= r.value.1 <= off + 10 && r.value.1 <= |data|
    ensures r.Ok? && U16(data, off) < 0x8000 ==> r.value == (Int(U16(data, off)), off + 2)
    ensures CanRead(data, off, 2) && U16(data, off) > 0x8006 ==> r == Err(AssertionError)
  {
    ReadPackedWith(LongBytes(h), data, off)
  }

  /** On an LLP64 host the native reader is the standard-size one. */
  lemma NativeOnLLP64(data: byteseq, off: nat)
    ensures ReadPackedNative(LLP64, data, off) == ReadPacked(data, off)
  {}

  /** Every tag but LF_LONG and LF_ULONG reads the same on any host. */
  lemma NativeAgreesOffLong(h: Host, data: byteseq, off: nat)
    requires CanRead(data, off, 2) && U16(data, off) != 0x8003 && U16(data, off) != 0x8004
    ensures ReadPackedNative(h, data, off) == ReadPacked(data, off)
  {}

  /**
   * On an LP64 host an LF_LONG or LF_ULONG value consumes 8 bytes, not the 4
   * the CodeView format gives it, so the offset returned is 4 bytes too far.
   */
  lemma NativeLongOverreads(data: byteseq, off: nat)
    requires CanRead(data, off, 10) && (U16(data, off) == 0x8003 || U16(data, off) == 0x8004)
    ensures ReadPackedNative(LP64, data, off).Ok? && ReadPacked(data, off).Ok?
    ensures ReadPackedNative(LP64, data, off).value.1 == ReadPacked(data, off).value.1 + 4
  {}

  /** With fewer than 8 bytes after an LF_LONG tag the LP64 reader fails where the standard one succeeds. */
  lemma NativeLongShortBuffer(data: byteseq, off: nat)
    requires |data| == off + 6 && (U16(data, off) == 0x8003 || U16(data, off) == 0x8004)
    ensures ReadPackedNative(LP64, data, off) == Err(StructError)
    ensures ReadPacked(data, off).Ok?
  {}
}
