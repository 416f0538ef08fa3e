/**
 * The display name given to a string entity: the text passed through
 * Python's `unicode_escape` codec, every `"` turned into `\"`, wrapped in
 * double quotes and prefixed with `L` for a wide string. An unescaping
 * parser is the partner that shows no information is lost.
 */
module EntityName {
  import opened Wrappers

  function HexDigit(d: int): (c: char)
    requires 0 <= d < 16
    ensures ('0' <= c <= '9') || ('a' <= c <= 'f')
  {
    if d < 10 then (d + 48) as char else (d - 10 + 97) as char
  }

  function DigitValue(c: char): (r: Option<int>)
    ensures r.Some? ==> 0 <= r.value < 16
  {
    if '0' <= c <= '9' then Some(c as int - 48)
    else if 'a' <= c <= 'f' then Some(c as int - 97 + 10)
    else if 'A' <= c <= 'F' then Some(c as int - 65 + 10)
    else None
  }

  function Pow16(w: nat): (r: nat)
    ensures r >= 1
  { if w == 0 then 1 else 16 * Pow16(w - 1) }

  /** The `w` lowercase hexadecimal digits of `n`, most significant first (`%0wx`). */
  function Hex(n: nat, w: nat): (s: string)
    ensures |s| == w
    ensures forall i :: 0 <= i < |s| ==> ('0' <= s[i] <= '9') || ('a' <= s[i] <= 'f')
  {
    if w == 0 then [] else Hex(n / 16, w - 1) + [HexDigit(n % 16)]
  }

  /** `int(s, 16)` on a hex-digit capture of the cvdump patterns, which is never empty and
      never holds a "0x" prefix or "_"; on such inputs `int` would differ (it raises on "",
      and accepts the prefix and separators), but they do not reach this function. */
  function ParseHex(s: string): (r: Option<nat>)
  {
    if |s| == 0 then Some(0)
    else
      match (ParseHex(s[..|s| - 1]), DigitValue(s[|s| - 1]))
      case (Some(hi), Some(lo)) => Some(16 * hi + lo)
      case _ => None
  }

  lemma {:induction false} ParseHexOfHex(n: nat, w: nat)
    requires n < Pow16(w)
    ensures ParseHex(Hex(n, w)) == Some(n)
  {
    if w > 0 {
      var s := Hex(n, w);
      assert s[..|s| - 1] == Hex(n / 16, w - 1);
      ParseHexOfHex(n / 16, w - 1);
    }
  }

  predicate IsScalar(v: int) { 0 <= v < 0xD800 || 0xE000 <= v < 0x11_0000 }

  /** One character as the `unicode_escape` codec writes it. */
  function EscapeChar(c: char): (s: string)
    ensures 1 <= |s| <= 10
    ensures forall i :: 0 <= i < |s| ==> ' ' <= s[i] <= '~'
  {
    var cp := c as int;
    if cp >= 0x1_0000 then "\\U" + Hex(cp, 8)
    else if cp >= 0x100 then "\\u" + Hex(cp, 4)
    else if c == '\\' then "\\\\"
    else if c == '\t' then "\\t"
    else if c == '\n' then "\\n"
    else if c == '\r' then "\\r"
    else if cp < 0x20 || cp >= 0x7f then "\\x" + Hex(cp, 2)
    else [c]
  }

  /** `text.encode("unicode_escape").decode("utf-8")`. */
  function UnicodeEscape(text: string): (s: string)
    ensures forall i :: 0 <= i < |s| ==> ' ' <= s[i] <= '~'
  {
    if |text| == 0 then [] else EscapeChar(text[0]) + UnicodeEscape(text[1..])
  }

  /** `s.replace('"', '\\"')`. */
  function EscapeQuotes(s: string): (r: string)
    ensures |r| >= |s|
  {
    if |s| == 0 then [] else (if s[0] == '"' then "\\\"" else [s[0]]) + EscapeQuotes(s[1..])
  }

  /** db.py `entity_name_from_string`. */
  function EntityNameFromString(text: string, wide: bool): (name: string)
    ensures |name| >= 2 && name[|name| - 1] == '"'
    ensures wide ==> name[..2] == "L\""
    ensures !wide ==> name[0] == '"'
  {
    (if wide then "L" else "") + "\"" + EscapeQuotes(UnicodeEscape(text)) + "\""
  }

  // The partner: reading an escaped body back.

  /** The character a two-character escape such as `\n` stands for. */
  function SimpleEscape(k: char): Option<char>
  {
    if k == '\\' then Some('\\')
    else if k == 't' then Some('\t')
    else if k == 'n' then Some('\n')
    else if k == 'r' then Some('\r')
    else if k == '"' then Some('"')
    else None
  }

  /** The number of hex digits after `\x`, `\u` and `\U`; 0 for any other letter. */
  function HexWidth(k: char): nat
  {
    if k == 'x' then 2 else if k == 'u' then 4 else if k == 'U' then 8 else 0
  }

  /** Undo both escapes; None when the text is not a valid escaped body. */
  function Unescape(t: string): (r: Option<string>)
    decreases |t|
  {
    if |t| == 0 then Some([])
    else if t[0] != '\\' then Prepend(t[0], Unescape(t[1..]))
    else if |t| < 2 then None
    else
      match SimpleEscape(t[1])
      case Some(c) => Prepend(c, Unescape(t[2..]))
      case None =>
        var w := HexWidth(t[1]);
        if w == 0 || |t| < 2 + w then None
        else
          match ParseHex(t[2..2 + w])
          case Some(v) => if IsScalar(v) then Prepend(v as char, Unescape(t[2 + w..])) else None
          case None => None
  }

  function Prepend(c: char, r: Option<string>): Option<string>
  {
    match r
    case Some(s) => Some([c] + s)
    case None => None
  }

  /** The escaped form of one character, quotes escaped too. */
  function EscapeBoth(c: char): string
  {
    EscapeQuotes(EscapeChar(c))
  }

  lemma EscapeQuotesAppend(a: string, b: string)
    ensures EscapeQuotes(a + b) == EscapeQuotes(a) + EscapeQuotes(b)
    decreases |a|
  {
    if |a| > 0 {
      assert (a + b)[0] == a[0];
      assert (a + b)[1..] == a[1..] + b;
      EscapeQuotesAppend(a[1..], b);
    } else {
      assert a + b == b;
    }
  }

  lemma {:induction false} EscapeBothBody(text: string)
    ensures |text| > 0 ==> EscapeQuotes(UnicodeEscape(text)) == EscapeBoth(text[0]) + EscapeQuotes(UnicodeEscape(text[1..]))
  {
    if |text| > 0 { EscapeQuotesAppend(EscapeChar(text[0]), UnicodeEscape(text[1..])); }
  }

  lemma EscapeQuotesNoQuote(s: string)
    requires forall i :: 0 <= i < |s| ==> s[i] != '"'
    ensures EscapeQuotes(s) == s
  {}

  lemma Pow16Values()
    ensures Pow16(2) == 0x100 && Pow16(4) == 0x1_0000 && Pow16(8) == 0x1_0000_0000
  {
    assert Pow16(4) == 0x1_0000;
  }

  lemma UnescapeHexCase(k: char, w: nat, c: char, rest: string)
    requires (k == 'x' && w == 2) || (k == 'u' && w == 4) || (k == 'U' && w == 8)
    requires c as int < Pow16(w)
    ensures Unescape(['\\', k] + Hex(c as int, w) + rest) == Prepend(c, Unescape(rest))
  {
    var t := ['\\', k] + Hex(c as int, w) + rest;
    assert SimpleEscape(t[1]).None? && HexWidth(t[1]) == w;
    assert t[2..2 + w] == Hex(c as int, w);
    assert t[2 + w..] == rest;
    ParseHexOfHex(c as int, w);
  }

  lemma UnescapeSimpleCase(k: char, c: char, rest: string)
    requires (k, c) in {('\\', '\\'), ('t', '\t'), ('n', '\n'), ('r', '\r'), ('"', '"')}
    ensures Unescape(['\\', k] + rest) == Prepend(c, Unescape(rest))
  {
    assert (['\\', k] + rest)[2..] == rest;
  }

  lemma {:induction false} UnescapeOne(c: char, rest: string)
    ensures Unescape(EscapeBoth(c) + rest) == Prepend(c, Unescape(rest))
  {
    var cp := c as int;
    var e := EscapeChar(c);
    Pow16Values();
    if cp >= 0x1_0000 {
      EscapeQuotesNoQuote(e);
      assert e == ['\\', 'U'] + Hex(cp, 8);
      UnescapeHexCase('U', 8, c, rest);
    } else if cp >= 0x100 {
      EscapeQuotesNoQuote(e);
      assert e == ['\\', 'u'] + Hex(cp, 4);
      UnescapeHexCase('u', 4, c, rest);
    } else if c == '\\' {
      EscapeQuotesNoQuote(e);
      UnescapeSimpleCase('\\', c, rest);
    } else if c == '\t' {
      EscapeQuotesNoQuote(e);
      UnescapeSimpleCase('t', c, rest);
    } else if c == '\n' {
      EscapeQuotesNoQuote(e);
      UnescapeSimpleCase('n', c, rest);
    } else if c == '\r' {
      EscapeQuotesNoQuote(e);
      UnescapeSimpleCase('r', c, rest);
    } else if cp < 0x20 || cp >= 0x7f {
      EscapeQuotesNoQuote(e);
      assert e == ['\\', 'x'] + Hex(cp, 2);
      UnescapeHexCase('x', 2, c, rest);
    } else if c == '"' {
      assert EscapeBoth(c) == ['\\', '"'];
      UnescapeSimpleCase('"', c, rest);
    } else {
      assert EscapeBoth(c) == [c];
      assert (EscapeBoth(c) + rest)[1..] == rest;
    }
  }

  /** Unescaping the escaped body gives the text back. */
  lemma {:induction false} UnescapeRoundTrip(text: string)
    ensures Unescape(EscapeQuotes(UnicodeEscape(text))) == Some(text)
    decreases |text|
  {
    if |text| > 0 {
      EscapeBothBody(text);
      UnescapeOne(text[0], EscapeQuotes(UnicodeEscape(text[1..])));
      UnescapeRoundTrip(text[1..]);
      assert [text[0]] + text[1..] == text;
    }
  }

  /** Split an entity name back into its text and its width. */
  function ParseEntityName(name: string): (r: Option<(string, bool)>)
  {
    var wide := |name| >= 1 && name[0] == 'L';
    var start := if wide then 1 else 0;
    if |name| < start + 2 || name[start] != '"' || name[|name| - 1] != '"' then None
    else
      match Unescape(name[start + 1..|name| - 1])
      case Some(text) => Some((text, wide))
      case None => None
  }

  lemma NameRoundTrip(text: string, wide: bool)
    ensures ParseEntityName(EntityNameFromString(text, wide)) == Some((text, wide))
  {
    var body := EscapeQuotes(UnicodeEscape(text));
    var name := EntityNameFromString(text, wide);
    var start := if wide then 1 else 0;
    assert name[start + 1..|name| - 1] == body;
    UnescapeRoundTrip(text);
    assert !wide ==> name[0] == '"';
  }

  /** Two texts give the same name only if they are the same text with the same width. */
  lemma NameInjective(t1: string, w1: bool, t2: string, w2: bool)
    requires EntityNameFromString(t1, w1) == EntityNameFromString(t2, w2)
    ensures t1 == t2 && w1 == w2
  {
    NameRoundTrip(t1, w1);
    NameRoundTrip(t2, w2);
  }
}
