/**
 * `struct.unpack_from` and `struct.pack` for the standard-size
 * little-endian formats of unsigned fields that the PDB decoders use
 * ("<" with "B", "H" and "I"/"L"). A format is the list of its field
 * widths; a pad "x" is read as a field whose value is dropped.
 */
module StructFormat {
  import opened Wrappers
  import opened Bytes

  predicate IsWidth(w: nat) { w == 1 || w == 2 || w == 4 }

  predicate IsFormat(ws: seq<nat>) { forall i :: 0 <= i < |ws| ==> IsWidth(ws[i]) }

  /** The bytes taken by the fields from index `i` on. */
  function SizeFrom(ws: seq<nat>, i: nat): nat
    decreases |ws| - i
  {
    if i >= |ws| then 0 else ws[i] + SizeFrom(ws, i + 1)
  }

  /** `struct.calcsize`: with "<" the fields are packed with no alignment. */
  function CalcSize(ws: seq<nat>): nat { SizeFrom(ws, 0) }

  /** One more than the largest value of a field of width `w`. */
  function Limit(w: nat): nat
  {
    if w == 1 then 0x100 else if w == 2 then 0x1_0000 else 0x1_0000_0000
  }

  /** The values fit the fields of the format. */
  predicate Fits(ws: seq<nat>, vs: seq<nat>)
  {
    |vs| == |ws| && forall i :: 0 <= i < |ws| ==> vs[i] < Limit(ws[i])
  }

  function UAt(w: nat, data: byteseq, off: nat): (r: nat)
    requires IsWidth(w) && CanRead(data, off, w)
    ensures r < Limit(w)
  {
    if w == 1 then data[off] else if w == 2 then U16(data, off) else U32(data, off)
  }

  /** The fields from index `i` on, the first of them at `off`. */
  function ValuesFrom(ws: seq<nat>, data: byteseq, off: nat, i: nat): (vs: seq<nat>)
    requires IsFormat(ws) && i <= |ws| && CanRead(data, off, SizeFrom(ws, i))
    ensures |vs| == |ws| - i && forall j :: 0 <= j < |vs| ==> vs[j] < Limit(ws[i + j])
    decreases |ws| - i
  {
    if i == |ws| then [] else [UAt(ws[i], data, off)] + ValuesFrom(ws, data, off + ws[i], i + 1)
  }

  function Values(ws: seq<nat>, data: byteseq, off: nat): (vs: seq<nat>)
    requires IsFormat(ws) && CanRead(data, off, CalcSize(ws))
    ensures Fits(ws, vs)
  {
    ValuesFrom(ws, data, off, 0)
  }

  /** `struct.unpack_from(fmt, data, offset)`: `struct.error` when the buffer is too short. */
  function Unpack(ws: seq<nat>, data: byteseq, off: nat): (r: Result<seq<nat>>)
    requires IsFormat(ws)
    ensures r.Ok? <==> CanRead(data, off, CalcSize(ws))
    ensures r.Ok? ==> Fits(ws, r.value)
    ensures r.Err? ==> r.error == StructError
  {
    if CanRead(data, off, CalcSize(ws)) then Ok(Values(ws, data, off)) else Err(StructError)
  }

  function PackOne(w: nat, v: nat): (b: byteseq)
    requires IsWidth(w) && v < Limit(w)
    ensures |b| == w
  {
    if w == 1 then [v] else if w == 2 then PackU16(v) else PackU32(v)
  }

  function PackFrom(ws: seq<nat>, vs: seq<nat>, i: nat): (b: byteseq)
    requires IsFormat(ws) && Fits(ws, vs) && i <= |ws|
    ensures |b| == SizeFrom(ws, i)
    decreases |ws| - i
  {
    if i == |ws| then [] else PackOne(ws[i], vs[i]) + PackFrom(ws, vs, i + 1)
  }

  /** `struct.pack(fmt, *values)`. */
  function Pack(ws: seq<nat>, vs: seq<nat>): (b: byteseq)
    requires IsFormat(ws) && Fits(ws, vs)
    ensures |b| == CalcSize(ws)
  {
    PackFrom(ws, vs, 0)
  }

  lemma UAtPacked(w: nat, v: nat, data: byteseq, off: nat)
    requires IsWidth(w) && v < Limit(w) && At(data, off, PackOne(w, v))
    ensures CanRead(data, off, w) && UAt(w, data, off) == v
  {
    if w == 1 {
      assert data[off] == PackOne(w, v)[0];
    } else if w == 2 {
      U16At(data, off, v);
    } else {
      U32At(data, off, v);
    }
  }

  /** `ValuesFrom` unfolded once. */
  lemma ValuesFromStep(ws: seq<nat>, data: byteseq, off: nat, i: nat, k: nat)
    requires IsFormat(ws) && i < |ws| && CanRead(data, off, SizeFrom(ws, i)) && k == off + ws[i]
    ensures CanRead(data, off, ws[i]) && CanRead(data, k, SizeFrom(ws, i + 1))
    ensures ValuesFrom(ws, data, off, i) == [UAt(ws[i], data, off)] + ValuesFrom(ws, data, k, i + 1)
  {
  }

  /** The first field read, then the fields after it. */
  lemma ValuesFromCons(ws: seq<nat>, vs: seq<nat>, data: byteseq, off: nat, i: nat, k: nat)
    requires IsFormat(ws) && Fits(ws, vs) && i < |ws| && k == off + ws[i]
    requires CanRead(data, off, ws[i]) && UAt(ws[i], data, off) == vs[i]
    requires CanRead(data, k, SizeFrom(ws, i + 1)) && ValuesFrom(ws, data, k, i + 1) == vs[i + 1..]
    ensures CanRead(data, off, SizeFrom(ws, i)) && ValuesFrom(ws, data, off, i) == vs[i..]
  {
    SeqCons(vs, i);
  }

  lemma SeqCons(s: seq<nat>, i: nat)
    requires i < |s|
    ensures s[i..] == [s[i]] + s[i + 1..]
  {
  }

  lemma {:induction false} UnpackPackFrom(ws: seq<nat>, vs: seq<nat>, data: byteseq, off: nat, i: nat)
    requires IsFormat(ws) && Fits(ws, vs) && i <= |ws| && At(data, off, PackFrom(ws, vs, i))
    ensures CanRead(data, off, SizeFrom(ws, i)) && ValuesFrom(ws, data, off, i) == vs[i..]
    decreases |ws| - i
  {
    if i < |ws| {
      var k := off + ws[i];
      AtSplitAt(data, off, PackOne(ws[i], vs[i]), PackFrom(ws, vs, i + 1), k);
      UAtPacked(ws[i], vs[i], data, off);
      UnpackPackFrom(ws, vs, data, k, i + 1);
      ValuesFromCons(ws, vs, data, off, i, k);
    }
  }

  /** Packed values unpack to themselves wherever they lie. */
  lemma UnpackPack(ws: seq<nat>, vs: seq<nat>, data: byteseq, off: nat)
    requires IsFormat(ws) && Fits(ws, vs) && At(data, off, Pack(ws, vs))
    ensures Unpack(ws, data, off) == Ok(vs)
  {
    UnpackPackFrom(ws, vs, data, off, 0);
    assert vs[0..] == vs;
  }

  /** Field `j` lies after the fields before it: the sizes from `i` on less those from `j` on. */
  lemma {:induction false} ValueAt(ws: seq<nat>, data: byteseq, off: nat, i: nat, j: nat)
    requires IsFormat(ws) && i <= j < |ws| && CanRead(data, off, SizeFrom(ws, i))
    ensures SizeFrom(ws, j) <= SizeFrom(ws, i)
    ensures CanRead(data, off + SizeFrom(ws, i) - SizeFrom(ws, j), ws[j])
    ensures ValuesFrom(ws, data, off, i)[j - i] == UAt(ws[j], data, off + SizeFrom(ws, i) - SizeFrom(ws, j))
    decreases j - i
  {
    if i < j {
      ValueAt(ws, data, off + ws[i], i + 1, j);
    }
  }

  /** A format of one field. */
  lemma UnpackOne(w: nat, data: byteseq, off: nat)
    requires IsWidth(w)
    ensures CalcSize([w]) == w
    ensures Unpack([w], data, off) == if CanRead(data, off, w) then Ok([UAt(w, data, off)]) else Err(StructError)
  {
    assert SizeFrom([w], 1) == 0;
    assert CalcSize([w]) == w;
    if CanRead(data, off, w) {
      assert ValuesFrom([w], data, off + w, 1) == [];
      var v := UAt(w, data, off);
      assert Values([w], data, off) == [v] + [];
      assert [v] + [] == [v];
      assert Unpack([w], data, off) == Ok([v]);
    }
  }
}
