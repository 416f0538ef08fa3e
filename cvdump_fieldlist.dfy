/**
 * The cvdump LF_FIELDLIST reader: type keys are normalised (a "0x…" type
 * index keeps its last four hex digits in lower case; a named "T_…" type
 * loses its parenthesised numeric value), and the captured fields become
 * base-class, member, virtual-base, enumerator and vtable-pointer records.
 * The regular expressions that find the fields are not modelled: their
 * captures are the input.
 */
module CvdumpFieldlist {
  import opened Wrappers
  import opened Order

  /** `s.partition(c)[0]`: everything before the first `c`, or all of `s`. */
  function Before(s: string, c: char): (r: string)
    ensures |r| <= |s| && r == s[..|r|]
    ensures c !in r
    ensures |r| < |s| ==> s[|r|] == c
  {
    if |s| == 0 then ""
    else if s[0] == c then ""
    else [s[0]] + Before(s[1..], c)
  }

  /** `key[-4:]`: the last four characters, or the whole key when shorter. */
  function Last4(key: string): (r: string)
    ensures |r| == if |key| < 4 then |key| else 4
    ensures r == key[|key| - |r|..]
  {
    if |key| < 4 then key else key[|key| - 4..]
  }

  /** `normalize_type_id`; the empty key raises IndexError at `key[0]`. */
  function NormalizeTypeId(key: string): (r: Result<string>)
    ensures key == "" <==> r == Err(IndexError)
    ensures r.Ok? && key[0] == '0' ==> r.value == "0x" + Lower(Last4(key))
    ensures r.Ok? && key[0] != '0' ==> r.value == Before(key, '(')
  {
    if key == "" then Err(IndexError)
    else if key[0] == '0' then Ok("0x" + Lower(Last4(key)))
    else Ok(Before(key, '('))
  }

  /**
   * What normalising means: a "0…" key becomes "0x" and at most four
   * characters with no upper-case letter; any other key becomes the longest
   * prefix without "(".
   */
  lemma NormalizeShape(key: string)
    requires key != ""
    ensures var r := NormalizeTypeId(key).value;
      if key[0] == '0' then
        && |r| <= 6 && r[..2] == "0x"
        && forall i :: 2 <= i < |r| ==> !('A' <= r[i] <= 'Z')
      else
        && '(' !in r && r == key[..|r|] && (|r| < |key| ==> key[|r|] == '(')
  {}

  lemma {:induction false} BeforeIdempotent(s: string, c: char)
    ensures Before(Before(s, c), c) == Before(s, c)
  {
    if |s| > 0 && s[0] != c {
      BeforeIdempotent(s[1..], c);
    }
  }

  /**
   * Normalising twice is normalising once for every key that neither starts
   * with "(" nor is a "0…" key shorter than four characters.
   */
  lemma NormalizeIdempotent(key: string)
    requires key != "" && key[0] != '(' && (key[0] != '0' || |key| >= 4)
    ensures NormalizeTypeId(key).Ok? && NormalizeTypeId(NormalizeTypeId(key).value) == NormalizeTypeId(key)
  {
    var r := NormalizeTypeId(key).value;
    if key[0] == '0' {
      assert Last4(r) == Lower(Last4(key));
      LowerIdempotent(Last4(key));
    } else {
      BeforeIdempotent(key, '(');
      if r != "" {
        assert r[0] == key[0];
      }
    }
  }

  /** A short "0…" key is not stable: "0" becomes "0x0" and then "0x0x0". */
  lemma NormalizeShortKeyGrows()
    ensures NormalizeTypeId("0") == Ok("0x0")
    ensures NormalizeTypeId("0x0") == Ok("0x0x0")
  {
    assert Last4("0") == "0";
    assert Lower("0") == "0";
    assert "0x" + "0" == "0x0";
    assert Last4("0x0") == "0x0";
    assert Lower("0x0") == "0x0";
    assert "0x" + "0x0" == "0x0x0";
  }

  /** A key that starts with "(" normalises to the empty string, which then raises. */
  lemma NormalizeParenKey()
    ensures NormalizeTypeId("(1)") == Ok("")
    ensures NormalizeTypeId("") == Err(IndexError)
  {}

  // ---- parse_fieldlist ----

  datatype LfBClass = LfBClass(index: int, typ: string, offset: int)
  datatype LfMember = LfMember(index: int, typ: string, offset: int, name: string)
  datatype LfVBClass = LfVBClass(index: int, direct: bool, typ: string, vboffset: int, vbindex: int)
  datatype LfEnumerate = LfEnumerate(index: int, value: int, name: string)
  datatype LfVFuncTab = LfVFuncTab(index: int)
  datatype LfFieldlist = LfFieldlist(
    bases: seq<LfBClass>, members: seq<LfMember>, virtualBases: seq<LfVBClass>,
    variants: seq<LfEnumerate>, vfunctabs: seq<LfVFuncTab>)

  /** The captures of each regular expression, the digit groups already converted by `int`. */
  datatype Captures = Captures(
    bases: seq<(int, string, int)>,
    members: seq<(int, string, int, string)>,
    virtualBases: seq<(int, string, string, int, int)>,
    variants: seq<(int, int, string)>,
    vfunctabs: seq<int>)

  /** The base-class comprehension; the first empty type raises IndexError. */
  function Bases(cs: seq<(int, string, int)>): Result<seq<LfBClass>>
  {
    if forall i :: 0 <= i < |cs| ==> cs[i].1 != "" then
      Ok(seq(|cs|, i requires 0 <= i < |cs| => LfBClass(cs[i].0, NormalizeTypeId(cs[i].1).value, cs[i].2)))
    else Err(IndexError)
  }

  /** The member comprehension; the first empty type raises IndexError. */
  function Members(cs: seq<(int, string, int, string)>): Result<seq<LfMember>>
  {
    if forall i :: 0 <= i < |cs| ==> cs[i].1 != "" then
      Ok(seq(|cs|, i requires 0 <= i < |cs| => LfMember(cs[i].0, NormalizeTypeId(cs[i].1).value, cs[i].2, cs[i].3)))
    else Err(IndexError)
  }

  /** `parse_fieldlist` from the captures. */
  function ParseFieldlist(c: Captures): (r: Result<LfFieldlist>)
    ensures r.Ok? <==> Bases(c.bases).Ok? && Members(c.members).Ok?
  {
    match Bases(c.bases)
    case Err(e) => Err(e)
    case Ok(bases) =>
      match Members(c.members)
      case Err(e) => Err(e)
      case Ok(members) =>
        var vbs := seq(|c.virtualBases|, i requires 0 <= i < |c.virtualBases| =>
          var v := c.virtualBases[i];
          LfVBClass(v.0, v.1 != "I", v.2, v.3, v.4));
        var vars := seq(|c.variants|, i requires 0 <= i < |c.variants| => LfEnumerate(c.variants[i].0, c.variants[i].1, c.variants[i].2));
        var tabs := seq(|c.vfunctabs|, i requires 0 <= i < |c.vfunctabs| => LfVFuncTab(c.vfunctabs[i]));
        Ok(LfFieldlist(bases, members, vbs, vars, tabs))
  }

  /**
   * Every capture becomes one record, in order: base and member types are
   * normalised (so an empty type raises), a virtual base is direct iff its
   * marker is not "I" and keeps its type text as captured.
   */
  lemma ParseFieldlistRecords(c: Captures)
    requires forall i :: 0 <= i < |c.bases| ==> c.bases[i].1 != ""
    requires forall i :: 0 <= i < |c.members| ==> c.members[i].1 != ""
    ensures ParseFieldlist(c).Ok?
    ensures var f := ParseFieldlist(c).value;
      && |f.bases| == |c.bases| && |f.members| == |c.members|
      && |f.virtualBases| == |c.virtualBases| && |f.variants| == |c.variants| && |f.vfunctabs| == |c.vfunctabs|
      && (forall i :: 0 <= i < |c.bases| ==>
            f.bases[i] == LfBClass(c.bases[i].0, NormalizeTypeId(c.bases[i].1).value, c.bases[i].2))
      && (forall i :: 0 <= i < |c.members| ==>
            f.members[i] == LfMember(c.members[i].0, NormalizeTypeId(c.members[i].1).value, c.members[i].2, c.members[i].3))
      && (forall i :: 0 <= i < |c.virtualBases| ==>
            (f.virtualBases[i].direct <==> c.virtualBases[i].1 != "I") && f.virtualBases[i].typ == c.virtualBases[i].2)
  {}

  /** One empty base or member type makes the whole parse raise IndexError. */
  lemma ParseFieldlistEmptyType(c: Captures, i: nat)
    requires (i < |c.bases| && c.bases[i].1 == "") || (i < |c.members| && c.members[i].1 == "")
    ensures ParseFieldlist(c) == Err(IndexError)
  {}
}
