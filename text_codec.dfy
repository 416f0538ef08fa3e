/**
 * The byte-to-text decoders: ASCII and Latin-1 (every byte is
 * the code point of the same value; ASCII refuses bytes above 0x7F), and
 * UTF-16 little-endian (two bytes per code unit, surrogate pairs combined,
 * anything unpaired or a dangling odd byte an error).
 */
module TextCodec {
  import opened Wrappers
  import opened Bytes

  /** `bytes.decode("latin1")`: never fails. */
  function DecodeLatin1(b: byteseq): (s: string)
    ensures |s| == |b| && forall i :: 0 <= i < |b| ==> s[i] as int == b[i]
  {
    seq(|b|, i requires 0 <= i < |b| => b[i] as char)
  }

  function EncodeLatin1(s: string): (b: seq<int>)
    ensures |b| == |s| && forall i :: 0 <= i < |s| ==> b[i] == s[i] as int
  {
    seq(|s|, i requires 0 <= i < |s| => s[i] as int)
  }

  lemma Latin1RoundTrip(b: byteseq)
    ensures EncodeLatin1(DecodeLatin1(b)) == b
  {}

  /** `bytes.decode("ascii")`: fails on any byte of 0x80 or above. */
  function DecodeAscii(b: byteseq): (r: Result<string>)
    ensures r.Ok? <==> forall i :: 0 <= i < |b| ==> b[i] < 0x80
    ensures r.Ok? ==> r.value == DecodeLatin1(b)
    ensures r.Err? ==> r.error == DecodeError
  {
    if forall i :: 0 <= i < |b| ==> b[i] < 0x80 then Ok(DecodeLatin1(b)) else Err(DecodeError)
  }

  predicate IsHigh(u: int) { 0xD800 <= u < 0xDC00 }
  predicate IsLow(u: int) { 0xDC00 <= u < 0xE000 }

  /** The code point of a scalar character that is not a surrogate half. */
  predicate IsScalar(cp: int) { 0 <= cp < 0xD800 || 0xE000 <= cp < 0x11_0000 }

  /** Decode a sequence of 16-bit code units. */
  function DecodeUnits(u: seq<int>): (r: Option<string>)
    requires forall i :: 0 <= i < |u| ==> 0 <= u[i] < 0x1_0000
    decreases |u|
  {
    if u == [] then Some([])
    else if IsHigh(u[0]) then
      if |u| >= 2 && IsLow(u[1]) then
        var cp := 0x1_0000 + (u[0] - 0xD800) * 0x400 + (u[1] - 0xDC00);
        match DecodeUnits(u[2..])
        case None => None
        case Some(rest) => Some([cp as char] + rest)
      else None
    else if IsLow(u[0]) then None
    else
      match DecodeUnits(u[1..])
      case None => None
      case Some(rest) => Some([u[0] as char] + rest)
  }

  function Units(b: byteseq): (u: seq<int>)
    requires |b| % 2 == 0
    ensures |u| == |b| / 2
    ensures forall i :: 0 <= i < |u| ==> u[i] == b[2 * i] + 256 * b[2 * i + 1] && 0 <= u[i] < 0x1_0000
  {
    seq(|b| / 2, i requires 0 <= i < |b| / 2 => b[2 * i] + 256 * b[2 * i + 1])
  }

  /** `bytes.decode("utf-16le")`, None where Python raises UnicodeDecodeError. */
  function DecodeUtf16Le(b: byteseq): (r: Option<string>)
    ensures |b| % 2 == 1 ==> r.None?
  {
    if |b| % 2 == 1 then None else DecodeUnits(Units(b))
  }

  /** The code units of one character. */
  function CharUnits(c: char): (u: seq<int>)
    ensures 1 <= |u| <= 2 && forall i :: 0 <= i < |u| ==> 0 <= u[i] < 0x1_0000
  {
    var cp := c as int;
    if cp < 0x1_0000 then [cp]
    else [0xD800 + (cp - 0x1_0000) / 0x400, 0xDC00 + (cp - 0x1_0000) % 0x400]
  }

  function EncodeUnits(s: string): (u: seq<int>)
    ensures forall i :: 0 <= i < |u| ==> 0 <= u[i] < 0x1_0000
  {
    if s == [] then [] else CharUnits(s[0]) + EncodeUnits(s[1..])
  }

  /** `str.encode("utf-16le")`. */
  function EncodeUtf16Le(s: string): (b: seq<int>)
    ensures |b| % 2 == 0 && IsBytes(b)
  {
    var u := EncodeUnits(s);
    var b := seq(2 * |u|, i requires 0 <= i < 2 * |u| => if i % 2 == 0 then u[i / 2] % 256 else u[i / 2] / 256);
    assert |b| % 2 == 0;
    b
  }

  lemma UnitsOfEncoding(s: string)
    ensures Units(EncodeUtf16Le(s)) == EncodeUnits(s)
  {
    var u := EncodeUnits(s);
    var b := EncodeUtf16Le(s);
    assert |b| == 2 * |u|;
    forall i | 0 <= i < |u| ensures Units(b)[i] == u[i] {
      EvenOdd(i);
      assert b[2 * i] == u[i] % 256 && b[2 * i + 1] == u[i] / 256;
      SplitByte(u[i]);
    }
  }

  lemma EvenOdd(i: nat)
    ensures (2 * i) % 2 == 0 && (2 * i) / 2 == i && (2 * i + 1) % 2 == 1 && (2 * i + 1) / 2 == i
  {}

  lemma SplitByte(x: int)
    requires 0 <= x
    ensures x % 256 + 256 * (x / 256) == x
  {}

  /** A code point above the 16-bit plane splits into a high and a low surrogate that join back to it. */
  lemma SurrogateJoin(cp: int)
    requires 0x1_0000 <= cp < 0x11_0000
    ensures IsHigh(0xD800 + (cp - 0x1_0000) / 0x400) && IsLow(0xDC00 + (cp - 0x1_0000) % 0x400)
    ensures 0x1_0000 + ((cp - 0x1_0000) / 0x400) * 0x400 + (cp - 0x1_0000) % 0x400 == cp
  {
    var x := cp - 0x1_0000;
    assert x == (x / 0x400) * 0x400 + x % 0x400;
  }

  /** A high and a low surrogate join into a code point that splits back into them. */
  lemma SurrogateSplit(hi: int, lo: int)
    requires IsHigh(hi) && IsLow(lo)
    ensures (((hi - 0xD800) * 0x400 + (lo - 0xDC00)) / 0x400 == hi - 0xD800)
    ensures (((hi - 0xD800) * 0x400 + (lo - 0xDC00)) % 0x400 == lo - 0xDC00)
  {
    var a, b := hi - 0xD800, lo - 0xDC00;
    var x := a * 0x400 + b;
    assert x == (x / 0x400) * 0x400 + x % 0x400;
  }

  lemma CharUnitsDecode(c: char, rest: seq<int>, tail: string)
    requires forall i :: 0 <= i < |rest| ==> 0 <= rest[i] < 0x1_0000
    requires DecodeUnits(rest) == Some(tail)
    ensures DecodeUnits(CharUnits(c) + rest) == Some([c] + tail)
  {
    var u := CharUnits(c) + rest;
    var cp := c as int;
    if cp < 0x1_0000 {
      assert u[1..] == rest;
    } else {
      assert u[2..] == rest;
      SurrogateJoin(cp);
    }
  }

  lemma {:induction false} DecodeEncodeUnits(s: string)
    ensures DecodeUnits(EncodeUnits(s)) == Some(s)
  {
    if s != [] {
      DecodeEncodeUnits(s[1..]);
      CharUnitsDecode(s[0], EncodeUnits(s[1..]), s[1..]);
      assert [s[0]] + s[1..] == s;
    }
  }

  /** Decoding undoes encoding for every string. */
  lemma Utf16RoundTrip(s: string)
    ensures DecodeUtf16Le(EncodeUtf16Le(s)) == Some(s)
  {
    UnitsOfEncoding(s);
    DecodeEncodeUnits(s);
  }

  /** A surrogate pair decodes to one character, which encodes back to the pair. */
  lemma PairEncodes(u: seq<int>)
    requires forall i :: 0 <= i < |u| ==> 0 <= u[i] < 0x1_0000
    requires |u| >= 2 && IsHigh(u[0]) && DecodeUnits(u).Some?
    requires EncodeUnits(DecodeUnits(u[2..]).value) == u[2..]
    ensures EncodeUnits(DecodeUnits(u).value) == u
  {
    var cp := 0x1_0000 + (u[0] - 0xD800) * 0x400 + (u[1] - 0xDC00);
    SurrogateSplit(u[0], u[1]);
    assert CharUnits(cp as char) == u[..2];
    assert u == u[..2] + u[2..];
  }

  /** Any other unit decodes to the character with its value. */
  lemma SingleEncodes(u: seq<int>)
    requires forall i :: 0 <= i < |u| ==> 0 <= u[i] < 0x1_0000
    requires |u| >= 1 && !IsHigh(u[0]) && DecodeUnits(u).Some?
    requires EncodeUnits(DecodeUnits(u[1..]).value) == u[1..]
    ensures EncodeUnits(DecodeUnits(u).value) == u
  {
    assert u == [u[0]] + u[1..];
  }

  /** And a successful decode re-encodes to the same code units. */
  lemma {:induction false} DecodedUnitsEncode(u: seq<int>)
    requires forall i :: 0 <= i < |u| ==> 0 <= u[i] < 0x1_0000
    requires DecodeUnits(u).Some?
    ensures EncodeUnits(DecodeUnits(u).value) == u
    decreases |u|
  {
    if u != [] {
      if IsHigh(u[0]) {
        DecodedUnitsEncode(u[2..]);
        PairEncodes(u);
      } else {
        DecodedUnitsEncode(u[1..]);
        SingleEncodes(u);
      }
    }
  }
}
