/**
 * The attribute word of LF_POINTER (reccmp/isledecomp/formats/pdb/tpi.py,
 * `LfPointer.ptr_type`, `ptr_mode` and `flags`), laid out as the
 * lfPointerAttr bit field of cvinfo.h: bits 0-4 the pointer type, bits
 * 5-7 the mode, then one bit each for FLAT32, VOLATILE, CONST and
 * UNALIGNED, bits 8 to 11.
 *
 * `PtrType(..)` and `PtrMode(..)` raise `ValueError` for a value that is
 * no member of the enumeration; every combination of the four flags is a
 * member of `LfPointerAttr`.
 */
module TpiPointer {
  import opened Wrappers

  /** CV_PTR_UNUSEDPTR, the last member of `PtrType`. */
  const LastPtrType: nat := 0x0D
  /** CV_PTR_MODE_RESERVED, the last member of `PtrMode`. */
  const LastPtrMode: nat := 0x05

  /** `PtrType(attr & 0x1F)`. */
  function PtrTypeOf(attr: nat): (r: Result<nat>)
    ensures r.Ok? ==> r.value <= LastPtrType
  {
    var t := attr % 0x20;
    if t <= LastPtrType then Ok(t) else Err(ValueError)
  }

  /** `PtrMode((attr & 0xE0) >> 5)`. */
  function PtrModeOf(attr: nat): (r: Result<nat>)
    ensures r.Ok? ==> r.value <= LastPtrMode
  {
    var m := (attr / 0x20) % 8;
    if m <= LastPtrMode then Ok(m) else Err(ValueError)
  }

  datatype PtrFlag = Flat32 | Volatile | Const | Unaligned

  /** The `LfPointerAttr` value of a number below 16: the flags whose bit is set. */
  function FlagSet(bits: nat): (fs: set<PtrFlag>)
    requires bits < 16
  {
    (if bits % 2 == 1 then {Flat32} else {})
    + (if (bits / 2) % 2 == 1 then {Volatile} else {})
    + (if (bits / 4) % 2 == 1 then {Const} else {})
    + (if bits / 8 == 1 then {Unaligned} else {})
  }

  /** The number whose `LfPointerAttr` value is the set. */
  function FlagBits(fs: set<PtrFlag>): (bits: nat)
    ensures bits < 16
  {
    (if Flat32 in fs then 1 else 0) + (if Volatile in fs then 2 else 0)
    + (if Const in fs then 4 else 0) + (if Unaligned in fs then 8 else 0)
  }

  /** The low bits of a number, read through its three- and four-bit fields. */
  lemma NibbleBits(x: nat)
    ensures (x % 8) % 2 == (x % 16) % 2 == x % 2
    ensures ((x % 8) / 2) % 2 == ((x % 16) / 2) % 2 == (x / 2) % 2
    ensures ((x % 8) / 4) % 2 == ((x % 16) / 4) % 2 == (x / 4) % 2
    ensures (x % 8) / 8 == 0 && ((x % 16) / 8 == 1 <==> (x / 8) % 2 == 1)
  {
    var y1 := x / 2;
    var y2 := y1 / 2;
    var y3 := y2 / 2;
    var b0, b1, b2, b3 := x % 2, y1 % 2, y2 % 2, y3 % 2;
    assert x / 4 == y2 && x / 8 == y3;
    assert x == 16 * (y3 / 2) + (b0 + 2 * b1 + 4 * b2 + 8 * b3);
    assert x % 16 == b0 + 2 * b1 + 4 * b2 + 8 * b3;
    assert x == 8 * (b3 + 2 * (y3 / 2)) + (b0 + 2 * b1 + 4 * b2);
    assert x % 8 == b0 + 2 * b1 + 4 * b2;
  }

  /** Shifting right by 8 and then by k is shifting right by 8 + k. */
  lemma ShiftBits(attr: nat)
    ensures (attr / 0x100) / 2 == attr / 0x200
    ensures (attr / 0x100) / 4 == attr / 0x400
    ensures (attr / 0x100) / 8 == attr / 0x800
  {
  }

  /** Bits 8 to 11 of the word, read through the three- and four-bit fields. */
  lemma FlagBitsOf(attr: nat)
    ensures var x := attr / 0x100;
      && (x % 8) % 2 == (x % 16) % 2 == x % 2
      && ((x % 8) / 2) % 2 == ((x % 16) / 2) % 2 == (attr / 0x200) % 2
      && ((x % 8) / 4) % 2 == ((x % 16) / 4) % 2 == (attr / 0x400) % 2
      && (x % 8) / 8 == 0
      && ((x % 16) / 8 == 1 <==> (attr / 0x800) % 2 == 1)
  {
    NibbleBits(attr / 0x100);
    ShiftBits(attr);
  }

  /** `LfPointer.flags` as written: `(attr & 0x700) >> 8` keeps three of the four flag bits. */
  function FlagsAsWritten(attr: nat): (r: set<PtrFlag>)
    ensures Flat32 in r <==> (attr / 0x100) % 2 == 1
    ensures Volatile in r <==> (attr / 0x200) % 2 == 1
    ensures Const in r <==> (attr / 0x400) % 2 == 1
    ensures Unaligned !in r
  {
    FlagBitsOf(attr);
    FlagSet((attr / 0x100) % 8)
  }

  /** `LfPointer.flags` with the mask 0xF00 that covers all four flag bits. */
  function Flags(attr: nat): (r: set<PtrFlag>)
    ensures Flat32 in r <==> (attr / 0x100) % 2 == 1
    ensures Volatile in r <==> (attr / 0x200) % 2 == 1
    ensures Const in r <==> (attr / 0x400) % 2 == 1
    ensures Unaligned in r <==> (attr / 0x800) % 2 == 1
  {
    FlagBitsOf(attr);
    FlagSet((attr / 0x100) % 16)
  }

  /** The attribute word of a pointer: type, mode, flags and the bits above them. */
  function PackPointerAttr(ptrType: nat, mode: nat, fs: set<PtrFlag>, high: nat): nat
  {
    ptrType + 0x20 * mode + 0x100 * FlagBits(fs) + 0x1000 * high
  }

  lemma FlagSetBits(fs: set<PtrFlag>)
    ensures FlagSet(FlagBits(fs)) == fs
  {
    var b := FlagBits(fs);
    assert Flat32 in FlagSet(b) <==> Flat32 in fs;
    assert Volatile in FlagSet(b) <==> Volatile in fs;
    assert Const in FlagSet(b) <==> Const in fs;
    assert Unaligned in FlagSet(b) <==> Unaligned in fs;
    assert forall f :: f in FlagSet(b) <==> f in fs by {
      forall f ensures f in FlagSet(b) <==> f in fs {
        match f
        case Flat32 =>
        case Volatile =>
        case Const =>
        case Unaligned =>
      }
    }
  }

  /** The word splits into its fields: each accessor gives back the part it was packed from. */
  lemma PointerAttrRoundTrip(ptrType: nat, mode: nat, fs: set<PtrFlag>, high: nat)
    requires ptrType <= LastPtrType && mode <= LastPtrMode
    ensures PtrTypeOf(PackPointerAttr(ptrType, mode, fs, high)) == Ok(ptrType)
    ensures PtrModeOf(PackPointerAttr(ptrType, mode, fs, high)) == Ok(mode)
    ensures Flags(PackPointerAttr(ptrType, mode, fs, high)) == fs
  {
    var attr := PackPointerAttr(ptrType, mode, fs, high);
    var b := FlagBits(fs);
    var above := mode + 8 * b + 0x80 * high;
    assert attr == ptrType + 0x20 * above;
    assert attr % 0x20 == ptrType && attr / 0x20 == above;
    assert above % 8 == mode && above / 8 == b + 0x10 * high;
    assert attr / 0x100 == b + 0x10 * high;
    assert (attr / 0x100) % 16 == b;
    FlagSetBits(fs);
  }

  /** As written the flags are the intended ones less UNALIGNED, which is therefore never reported. */
  lemma UnalignedNeverReported(attr: nat)
    ensures FlagsAsWritten(attr) == Flags(attr) - {Unaligned}
    ensures Unaligned !in FlagsAsWritten(attr)
    ensures Unaligned in Flags(attr) <==> (attr / 0x800) % 2 == 1
  {
    var x := attr / 0x100;
    assert x % 16 == x % 8 + 8 * ((x / 8) % 2);
    assert x / 8 == attr / 0x800;
    var lo := x % 8;
    assert FlagSet(x % 16) == FlagSet(lo) + (if (x / 8) % 2 == 1 then {Unaligned} else {}) by {
      assert (x % 16) % 2 == lo % 2 && ((x % 16) / 2) % 2 == (lo / 2) % 2 && ((x % 16) / 4) % 2 == (lo / 4) % 2;
    }
  }

  /** An UNALIGNED pointer with no other flag reads, as written, as one with no flags at all. */
  lemma UnalignedLost(ptrType: nat, mode: nat, high: nat)
    requires ptrType <= LastPtrType && mode <= LastPtrMode
    ensures Flags(PackPointerAttr(ptrType, mode, {Unaligned}, high)) == {Unaligned}
    ensures FlagsAsWritten(PackPointerAttr(ptrType, mode, {Unaligned}, high)) == {}
  {
    PointerAttrRoundTrip(ptrType, mode, {Unaligned}, high);
    UnalignedNeverReported(PackPointerAttr(ptrType, mode, {Unaligned}, high));
  }
}
