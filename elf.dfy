/**
 * The ELF file header (Elf32_Ehdr / Elf64_Ehdr of the System V ABI, "Object
 * Files", section "ELF Header"): the "\x7fELF" magic, the class byte
 * choosing the 52- or 64-byte layout, the data byte choosing the byte
 * order, and the fields read with `struct.unpack_from`.
 */
module Elf {
  import opened Wrappers
  import opened Bytes

  /** `taste`: the four bytes at `off` are 0x7F 'E' 'L' 'F'. */
  predicate Taste(data: byteseq, off: nat)
  {
    off + 4 <= |data| && data[off..off + 4] == [0x7F, 0x45, 0x4C, 0x46]
  }

  /** The e_machine values ElfMachine lists; any other value raises ValueError. */
  predicate KnownMachine(m: int)
  {
    || 0 <= m <= 10 || m == 15 || 17 <= m <= 23 || 36 <= m <= 120 || 131 <= m <= 144
    || 160 <= m <= 181 || m == 183 || 185 <= m <= 205 || 210 <= m <= 224
    || m == 243 || m == 247 || m == 252 || m == 258
  }

  /** The EI_OSABI values ElfABI lists. */
  predicate KnownAbi(a: int)
  {
    a in {0, 1, 2, 3, 6, 7, 8, 9, 10, 11, 12, 64, 97, 255}
  }

  datatype Endianness = Little | Big

  /** The widths of the `struct` format after e_ident: "HHIIIIIHHHHHH" or "HHIQQQIHHHHHH". */
  function Widths(is64: bool): (w: seq<nat>)
    ensures |w| == 13
  {
    if is64 then [2, 2, 4, 8, 8, 8, 4, 2, 2, 2, 2, 2, 2]
    else [2, 2, 4, 4, 4, 4, 4, 2, 2, 2, 2, 2, 2]
  }

  /** Where field `i` starts: the widths of the fields before it, added up. */
  function Offset(w: seq<nat>, i: nat): nat
    requires i <= |w|
  {
    if i == 0 then 0 else Offset(w, i - 1) + w[i - 1]
  }

  /** `calcsize` of the whole format: 16 bytes of e_ident, then the fields. */
  function CalcSize(is64: bool): nat
  {
    16 + Offset(Widths(is64), 13)
  }

  /** One unsigned field of the given width and byte order. */
  function ReadUnsigned(e: Endianness, data: byteseq, off: nat, width: nat): int
    requires width in {2, 4, 8} && CanRead(data, off, width)
  {
    match e
    case Little => if width == 2 then U16(data, off) else if width == 4 then U32(data, off) else U64(data, off)
    case Big => if width == 2 then U16BE(data, off) else if width == 4 then U32BE(data, off) else U64BE(data, off)
  }

  /** A field ends no later than the format does. */
  lemma {:induction false} OffsetBound(w: seq<nat>, i: nat, j: nat)
    requires i < j <= |w|
    ensures Offset(w, i) + w[i] <= Offset(w, j)
    decreases j
  {
    if i < j - 1 {
      OffsetBound(w, i, j - 1);
    }
  }

  /** The fields, packed one after the other without padding, as `unpack_from` reads them. */
  function Unpack(e: Endianness, data: byteseq, off: nat, w: seq<nat>): (fs: seq<int>)
    requires forall i :: 0 <= i < |w| ==> w[i] in {2, 4, 8}
    requires off + Offset(w, |w|) <= |data|
    ensures |fs| == |w|
  {
    seq(|w|, i requires 0 <= i < |w| =>
      OffsetBound(w, i, |w|);
      ReadUnsigned(e, data, off + Offset(w, i), w[i]))
  }

  datatype ElfFileHeader = ElfFileHeader(
    ident: seq<int>, eType: int, machine: int, version: int, entry: int, phoff: int, shoff: int,
    flags: int, ehsize: int, phentsize: int, phnum: int, shentsize: int, shnum: int, shstrndx: int)
  {
    /** The fields after e_ident, in declaration order. */
    function Fields(): seq<int>
    {
      [eType, machine, version, entry, phoff, shoff, flags, ehsize, phentsize, phnum, shentsize, shnum, shstrndx]
    }
  }

  function Build(ident: seq<int>, fs: seq<int>): (h: ElfFileHeader)
    requires |fs| == 13
    ensures h.ident == ident && h.Fields() == fs
  {
    ElfFileHeader(ident, fs[0], fs[1], fs[2], fs[3], fs[4], fs[5], fs[6], fs[7], fs[8], fs[9], fs[10], fs[11], fs[12])
  }

  /** EI_DATA: 1 is little-endian; `from_memory` reads any other accepted value as big-endian. */
  function ByteOrder(b: int): Endianness
  {
    if b == 1 then Little else Big
  }

  /**
   * `ElfFileHeader.from_memory`: the header and `calcsize` of its format
   * (the header's size, not the offset after it).
   */
  function FromMemory(data: byteseq, off: nat): (r: Result<(ElfFileHeader, nat)>)
    ensures !Taste(data, off) ==> r == Err(NotFound)
    ensures Taste(data, off) && off + 4 < |data| && data[off + 4] !in {1, 2} ==> r == Err(ValueError)
    ensures r.Ok? ==> off + 6 <= |data| && data[off + 4] in {1, 2} && data[off + 5] in {1, 2}
    ensures r.Ok? ==> r.value.1 == CalcSize(data[off + 4] == 2) && off + r.value.1 <= |data|
    ensures r.Ok? ==> KnownMachine(r.value.0.machine) && r.value.0.ident == data[off..off + 16]
    ensures r.Ok? ==> r.value.0.Fields() == Unpack(ByteOrder(data[off + 5]), data, off + 16, Widths(data[off + 4] == 2))
  {
    if !Taste(data, off) then Err(NotFound)
    // `ord(bytes(ident[4:5]))` of an empty slice raises TypeError
    else if off + 4 >= |data| then Err(TypeError)
    else if data[off + 4] !in {1, 2} then Err(ValueError)
    else if off + 5 >= |data| then Err(TypeError)
    else if data[off + 5] !in {1, 2} then Err(ValueError)
    else
      var is64 := data[off + 4] == 2;
      var e := ByteOrder(data[off + 5]);
      if off + CalcSize(is64) > |data| then Err(StructError)
      else
        var fs := Unpack(e, data, off + 16, Widths(is64));
        if !KnownMachine(fs[1]) then Err(ValueError)
        else
          Ok((Build(data[off..off + 16], fs), CalcSize(is64)))
  }

  /** The System V ABI offsets of e_type .. e_shstrndx in Elf32_Ehdr and Elf64_Ehdr. */
  function AbiOffset(is64: bool, i: nat): nat
    requires i < 13
  {
    if is64 then [16, 18, 20, 24, 32, 40, 48, 52, 54, 56, 58, 60, 62][i]
    else [16, 18, 20, 24, 28, 32, 36, 40, 42, 44, 46, 48, 50][i]
  }

  /** The `struct` formats lay the fields out exactly where the ABI puts them, and their sizes are 52 and 64. */
  lemma FormatMatchesAbi(is64: bool, i: nat)
    requires i < 13
    ensures 16 + Offset(Widths(is64), i) == AbiOffset(is64, i)
    ensures CalcSize(false) == 52 && CalcSize(true) == 64
  {
    var w32, w64 := Widths(false), Widths(true);
    assert Offset(w32, 1) == 2 && Offset(w64, 1) == 2;
    assert Offset(w32, 2) == 4 && Offset(w64, 2) == 4;
    assert Offset(w32, 3) == 8 && Offset(w64, 3) == 8;
    assert Offset(w32, 4) == 12 && Offset(w64, 4) == 16;
    assert Offset(w32, 5) == 16 && Offset(w64, 5) == 24;
    assert Offset(w32, 6) == 20 && Offset(w64, 6) == 32;
    assert Offset(w32, 7) == 24 && Offset(w64, 7) == 36;
    assert Offset(w32, 8) == 26 && Offset(w64, 8) == 38;
    assert Offset(w32, 9) == 28 && Offset(w64, 9) == 40;
    assert Offset(w32, 10) == 30 && Offset(w64, 10) == 42;
    assert Offset(w32, 11) == 32 && Offset(w64, 11) == 44;
    assert Offset(w32, 12) == 34 && Offset(w64, 12) == 46;
    assert Offset(w32, 13) == 36 && Offset(w64, 13) == 48;
  }

  /**
   * A parsed header's fields are the values at the ABI offsets, in the byte
   * order the data byte names, with 8-byte entry, phoff and shoff in the
   * 64-bit layout.
   */
  lemma FromMemoryFields(data: byteseq, off: nat, i: nat)
    requires FromMemory(data, off).Ok? && i < 13
    ensures var is64 := data[off + 4] == 2;
      && off + AbiOffset(is64, i) + Widths(is64)[i] <= |data|
      && FromMemory(data, off).value.0.Fields()[i]
         == ReadUnsigned(ByteOrder(data[off + 5]), data, off + AbiOffset(is64, i), Widths(is64)[i])
  {
    UnpackAtAbi(ByteOrder(data[off + 5]), data, off, data[off + 4] == 2, i);
  }

  lemma UnpackAtAbi(e: Endianness, data: byteseq, off: nat, is64: bool, i: nat)
    requires off + CalcSize(is64) <= |data| && i < 13
    ensures off + AbiOffset(is64, i) + Widths(is64)[i] <= |data|
    ensures Unpack(e, data, off + 16, Widths(is64))[i] == ReadUnsigned(e, data, off + AbiOffset(is64, i), Widths(is64)[i])
  {
    FormatMatchesAbi(is64, i);
    OffsetBound(Widths(is64), i, 13);
  }

  /** `bitness`: 32 for class byte 1, 64 for 2, ValueError otherwise. */
  function Bitness(h: ElfFileHeader): (r: Result<nat>)
    requires |h.ident| == 16
    ensures r.Ok? <==> h.ident[4] in {1, 2}
    ensures r.Ok? ==> r.value == 32 * h.ident[4]
  {
    if h.ident[4] == 1 then Ok(32) else if h.ident[4] == 2 then Ok(64) else Err(ValueError)
  }

  /** A header that parsed has a bitness, and its size is 52 bytes for 32 bits and 64 bytes for 64 bits. */
  lemma ParsedBitness(data: byteseq, off: nat)
    requires FromMemory(data, off).Ok?
    ensures var (h, size) := FromMemory(data, off).value;
      && Bitness(h).Ok?
      && (Bitness(h).value == 32 <==> size == 52)
      && (Bitness(h).value == 64 <==> size == 64)
  {
    FormatMatchesAbi(false, 0);
  }

  /** The Python values `endianess` compares: an element of a bytes object is an int. */
  datatype PyValue = PyInt(i: int) | PyBytes(b: seq<int>)

  /**
   * `endianess` as written: `e_ident[5]` is an int and is compared with the
   * one-byte bytes objects b"\x01" and b"\x02"; an int never equals a bytes
   * object, so both tests fail.
   */
  function EndianessAsWritten(h: ElfFileHeader): (r: Result<Endianness>)
    requires |h.ident| == 16
  {
    if PyInt(h.ident[5]) == PyBytes([1]) then Ok(Little)
    else if PyInt(h.ident[5]) == PyBytes([2]) then Ok(Big)
    else Err(ValueError)
  }

  /** Every header, a valid one included, makes the property raise ValueError. */
  lemma EndianessAlwaysRaises(h: ElfFileHeader)
    requires |h.ident| == 16
    ensures EndianessAsWritten(h) == Err(ValueError)
  {}

  /** `endianess` as intended: data byte 1 is little-endian, 2 big-endian. */
  function Endianess(h: ElfFileHeader): (r: Result<Endianness>)
    requires |h.ident| == 16
    ensures r.Ok? <==> h.ident[5] in {1, 2}
    ensures r == Ok(Little) <==> h.ident[5] == 1
  {
    if h.ident[5] == 1 then Ok(Little) else if h.ident[5] == 2 then Ok(Big) else Err(ValueError)
  }

  /** The intended `endianess` of a parsed header is the byte order its fields were read in. */
  lemma ParsedEndianess(data: byteseq, off: nat)
    requires FromMemory(data, off).Ok?
    ensures var h := FromMemory(data, off).value.0;
      && Endianess(h).Ok?
      && h.eType == ReadUnsigned(Endianess(h).value, data, off + 16, 2)
  {
    FromMemoryFields(data, off, 0);
  }

  /** `abi`: ElfABI(e_ident[7]), ValueError for an unlisted value. */
  function Abi(h: ElfFileHeader): (r: Result<int>)
    requires |h.ident| == 16
    ensures r.Ok? <==> KnownAbi(h.ident[7])
    ensures r.Ok? ==> r.value == h.ident[7]
  {
    if KnownAbi(h.ident[7]) then Ok(h.ident[7]) else Err(ValueError)
  }
}
