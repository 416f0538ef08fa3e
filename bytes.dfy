/**
 * Byte buffers as sequences of integers in 0..255, with the fixed-width
 * little- and big-endian readers that `struct.unpack_from` performs.
 */
module Bytes {
  predicate IsByte(b: int) { 0 <= b < 256 }

  predicate IsBytes(s: seq<int>) { forall i :: 0 <= i < |s| ==> IsByte(s[i]) }

  type byteseq = s: seq<int> | IsBytes(s)

  /** `n` bytes can be read at `off` without running off the end. */
  predicate CanRead(data: seq<int>, off: int, n: nat) { 0 <= off && off + n <= |data| }

  function U8(data: byteseq, off: nat): (r: int)
    requires CanRead(data, off, 1)
    ensures 0 <= r < 0x100
  { data[off] }

  function U16(data: byteseq, off: nat): (r: int)
    requires CanRead(data, off, 2)
    ensures 0 <= r < 0x1_0000
  { data[off] + 0x100 * data[off + 1] }

  function U32(data: byteseq, off: nat): (r: int)
    requires CanRead(data, off, 4)
    ensures 0 <= r < 0x1_0000_0000
  { U16(data, off) + 0x1_0000 * U16(data, off + 2) }

  function U64(data: byteseq, off: nat): (r: int)
    requires CanRead(data, off, 8)
    ensures 0 <= r < 0x1_0000_0000_0000_0000
  { U32(data, off) + 0x1_0000_0000 * U32(data, off + 4) }

  function U16BE(data: byteseq, off: nat): (r: int)
    requires CanRead(data, off, 2)
    ensures 0 <= r < 0x1_0000
  { 0x100 * data[off] + data[off + 1] }

  function U32BE(data: byteseq, off: nat): (r: int)
    requires CanRead(data, off, 4)
    ensures 0 <= r < 0x1_0000_0000
  { 0x1_0000 * U16BE(data, off) + U16BE(data, off + 2) }

  function U64BE(data: byteseq, off: nat): (r: int)
    requires CanRead(data, off, 8)
    ensures 0 <= r < 0x1_0000_0000_0000_0000
  { 0x1_0000_0000 * U32BE(data, off) + U32BE(data, off + 4) }

  function Pow2(n: nat): (r: nat)
    ensures r >= 1
  { if n == 0 then 1 else 2 * Pow2(n - 1) }

  lemma Pow2Values()
    ensures Pow2(7) == 0x80 && Pow2(8) == 0x100 && Pow2(15) == 0x8000 && Pow2(16) == 0x1_0000
    ensures Pow2(31) == 0x8000_0000 && Pow2(32) == 0x1_0000_0000
  {
    assert Pow2(8) == 0x100;
    assert Pow2(16) == 0x1_0000;
    assert Pow2(24) == 0x100_0000;
  }

  function I8(data: byteseq, off: nat): (r: int)
    requires CanRead(data, off, 1)
    ensures -0x80 <= r < 0x80
  { var u := U8(data, off); if u < 0x80 then u else u - 0x100 }

  function I16(data: byteseq, off: nat): (r: int)
    requires CanRead(data, off, 2)
    ensures -0x8000 <= r < 0x8000
  { var u := U16(data, off); if u < 0x8000 then u else u - 0x1_0000 }

  function I32(data: byteseq, off: nat): (r: int)
    requires CanRead(data, off, 4)
    ensures -0x8000_0000 <= r < 0x8000_0000
  { var u := U32(data, off); if u < 0x8000_0000 then u else u - 0x1_0000_0000 }

  /** `struct.pack("<H", x)`. */
  function PackU16(x: int): (r: byteseq)
    requires 0 <= x < 0x1_0000
    ensures |r| == 2 && U16(r, 0) == x
  { [x % 0x100, x / 0x100] }

  /** `struct.pack("<I", x)`. */
  function PackU32(x: int): (r: byteseq)
    requires 0 <= x < 0x1_0000_0000
    ensures |r| == 4 && U32(r, 0) == x
  {
    var lo := PackU16(x % 0x1_0000);
    var hi := PackU16(x / 0x1_0000);
    assert U16(lo + hi, 0) == U16(lo, 0);
    assert U16(lo + hi, 2) == U16(hi, 0);
    lo + hi
  }

  /** Reading a value back after packing it at any position of a buffer. */
  lemma U16Frame(pre: byteseq, mid: byteseq, post: byteseq)
    requires |mid| == 2
    ensures IsBytes(pre + mid + post)
    ensures U16(pre + mid + post, |pre|) == U16(mid, 0)
  {
  }

  /** Python's `data[lo:hi]` for non-negative bounds: clipped to the buffer, empty when `hi <= lo`. */
  function Slice(data: byteseq, lo: nat, hi: nat): (r: byteseq)
    ensures |r| == if lo < hi && lo < |data| then (if hi < |data| then hi else |data|) - lo else 0
    ensures forall i :: 0 <= i < |r| ==> r[i] == data[lo + i]
  {
    if lo < hi && lo < |data| then data[lo..if hi < |data| then hi else |data|] else []
  }

  /**
   * The bit field of `width` bits starting at bit `lo`: `(x >> lo) & (2**width - 1)`.
   * A contiguous mask `x & m` is `Field(x, lo, width) * 2**lo`.
   */
  function Field(x: nat, lo: nat, width: nat): (r: nat)
    ensures r < Pow2(width)
  {
    (x / Pow2(lo)) % Pow2(width)
  }

  lemma MulAtLeast(d: nat, a: nat)
    requires d >= 1
    ensures d * a >= a
  {
  }

  /** A multiple of `a` leaves no remainder. */
  lemma MultipleMod(k: int, a: int)
    requires a > 0
    ensures (k * a) % a == 0
  {
    var q := (k * a) / a;
    var r := (k * a) % a;
    assert k * a == q * a + r;
    assert (k - q) * a == r;
    if k - q >= 1 {
      MulAtLeast(k - q, a);
    } else if k - q <= -1 {
      MulAtLeast(q - k, a);
    }
  }

  /** For a u16, bit 15 is set iff the value is at least 0x8000, and the low 15 bits are the rest. */
  lemma HighBit16(x: nat)
    requires x < 0x1_0000
    ensures (Field(x, 15, 1) == 1) == (x >= 0x8000)
    ensures Field(x, 0, 15) == x % 0x8000
  {
  }

  /** The first byte of a little-endian u16 is its low byte. */
  lemma U16Low(data: byteseq, off: nat)
    requires CanRead(data, off, 2)
    ensures data[off] == U16(data, off) % 0x100
  {
  }

  /** The bytes `e` lie at `off` in `data`. */
  predicate At(data: byteseq, off: nat, e: seq<int>) { off + |e| <= |data| && data[off..off + |e|] == e }

  /** Bytes written at `lo` are what slicing them out gives. */
  lemma SliceOfAt(data: byteseq, lo: nat, e: seq<int>, hi: nat)
    requires At(data, lo, e) && hi == lo + |e|
    ensures Slice(data, lo, hi) == e && At(Slice(data, lo, hi), 0, e)
  {
  }

  lemma AtSplit(data: byteseq, off: nat, a: seq<int>, b: seq<int>)
    requires At(data, off, a + b)
    ensures At(data, off, a) && At(data, off + |a|, b)
  {
    assert data[off..off + |a|] == data[off..off + |a + b|][..|a|];
    assert data[off + |a|..off + |a| + |b|] == data[off..off + |a + b|][|a|..];
  }

  lemma AtSplitAt(data: byteseq, off: nat, a: seq<int>, b: seq<int>, k: nat)
    requires At(data, off, a + b) && k == off + |a|
    ensures At(data, off, a) && At(data, k, b)
  {
    AtSplit(data, off, a, b);
  }

  lemma AtSplit3(data: byteseq, off: nat, a: seq<int>, b: seq<int>, c: seq<int>, k1: nat, k2: nat)
    requires At(data, off, a + b + c) && k1 == off + |a| && k2 == k1 + |b|
    ensures At(data, off, a) && At(data, k1, b) && At(data, k2, c)
  {
    AtSplitAt(data, off, a + b, c, k2);
    AtSplitAt(data, off, a, b, k1);
  }

  lemma U16At(data: byteseq, off: nat, x: int)
    requires 0 <= x < 0x1_0000 && At(data, off, PackU16(x))
    ensures CanRead(data, off, 2) && U16(data, off) == x
  {
  }

  lemma U32At(data: byteseq, off: nat, x: int)
    requires 0 <= x < 0x1_0000_0000 && At(data, off, PackU32(x))
    ensures CanRead(data, off, 4) && U32(data, off) == x
  {
  }
}
