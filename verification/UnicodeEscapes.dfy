/**
  The \u escapes of the parser: every code point written as RFC 8259, section 7,
  has it, alone or as a surrogate pair, becomes its UTF-8 encoding (RFC 3629).
 */
module UnicodeEscapes {
  import opened JsonValues
  import opened JsonText
  import opened ParseSpec

  /** Reading a UTF-8 sequence back: the leading byte says how many bytes follow, each with six bits. */
  function Utf8Value(s: string): Option<nat> {
    if |s| == 1 && s[0] as int < 0x80 then Some(s[0] as int)
    else if |s| == 2 && 0xC0 <= s[0] as int < 0xE0 && Continues(s[1]) then
      Some((s[0] as int - 0xC0) * 64 + SixBits(s[1]))
    else if |s| == 3 && 0xE0 <= s[0] as int < 0xF0 && Continues(s[1]) && Continues(s[2]) then
      Some(((s[0] as int - 0xE0) * 64 + SixBits(s[1])) * 64 + SixBits(s[2]))
    else if |s| == 4 && 0xF0 <= s[0] as int < 0xF8 && Continues(s[1]) && Continues(s[2]) && Continues(s[3]) then
      Some((((s[0] as int - 0xF0) * 64 + SixBits(s[1])) * 64 + SixBits(s[2])) * 64 + SixBits(s[3]))
    else None
  }

  predicate Continues(c: char) {
    0x80 <= c as int < 0xC0
  }

  function SixBits(c: char): nat
    requires Continues(c)
  {
    c as int - 0x80
  }

  /** The bytes written for a code point are its UTF-8 encoding: they read back as the code point. */
  lemma Utf8RoundTrip(codepoint: nat)
    requires codepoint <= 0x10FFFF
    ensures Utf8Value(Utf8(codepoint)) == Some(codepoint)
  {
    Sextets(codepoint);
    var s := Utf8(codepoint);
    if codepoint < 0x80 {
    } else if codepoint < 0x800 {
      assert s[0] as int == 0xC0 + codepoint / 64 && s[1] as int == 0x80 + codepoint % 64;
    } else if codepoint < 0x10000 {
      assert s[0] as int == 0xE0 + codepoint / 4096;
      assert s[1] as int == 0x80 + codepoint / 64 % 64 && s[2] as int == 0x80 + codepoint % 64;
    } else {
      assert s[0] as int == 0xF0 + codepoint / 262144 && s[1] as int == 0x80 + codepoint / 4096 % 64;
      assert s[2] as int == 0x80 + codepoint / 64 % 64 && s[3] as int == 0x80 + codepoint % 64;
    }
  }

  lemma Sextets(n: nat)
    ensures n == n / 64 * 64 + n % 64
    ensures n / 64 == n / 4096 * 64 + n / 64 % 64
    ensures n / 4096 == n / 262144 * 64 + n / 4096 % 64
  {
  }

  lemma Nibbles(n: nat)
    ensures n == n / 16 * 16 + n % 16
    ensures n / 16 == n / 256 * 16 + n / 16 % 16
    ensures n / 256 == n / 4096 * 16 + n / 256 % 16
  {
  }

  const LOWER := "0123456789abcdef"
  const UPPER := "0123456789ABCDEF"

  /** A hexadecimal digit, in either case. */
  function HexLetter(d: nat, cap: bool): char
    requires d < 16
  {
    if cap then UPPER[d] else LOWER[d]
  }

  function HexText(n: nat, caps: seq<bool>): string
    requires n < 0x10000 && |caps| == 4
  {
    [HexLetter(n / 4096, caps[0]), HexLetter(n / 256 % 16, caps[1]), HexLetter(n / 16 % 16, caps[2]), HexLetter(n % 16, caps[3])]
  }

  lemma HexReads(n: nat, caps: seq<bool>)
    requires n < 0x10000 && |caps| == 4
    ensures Hex4(HexText(n, caps)) == n
  {
    hide HexValue;
    hide HexLetter;
    DigitReads(n / 4096, caps[0]);
    DigitReads(n / 256 % 16, caps[1]);
    DigitReads(n / 16 % 16, caps[2]);
    DigitReads(n % 16, caps[3]);
    Nibbles(n);
  }

  lemma DigitReads(d: nat, cap: bool)
    requires d < 16
    ensures HexValue(HexLetter(d, cap)) == Some(d)
    ensures HexLetter(d, cap) != QUOTE && HexLetter(d, cap) != BACKSLASH
  {
  }

  /** No other byte is a digit. */
  lemma DigitIsRead(c: char)
    ensures HexValue(c).Some? ==> HexValue(c).value < 16 && exists cap :: c == HexLetter(HexValue(c).value, cap)
  {
    if HexValue(c).Some? {
      var d := HexValue(c).value;
      assert c == HexLetter(d, true) || c == HexLetter(d, false);
    }
  }

  function Unit(n: nat, caps: seq<bool>): string
    requires n < 0x10000 && |caps| == 4
  {
    [BACKSLASH, 'u'] + HexText(n, caps)
  }

  predicate IsScalar(codepoint: nat) {
    codepoint < 0xD800 || 0xE000 <= codepoint <= 0x10FFFF
  }

  /** A code point as a \u escape, with two of them above 0xFFFF; each digit may be in either case. */
  function EscapeText(codepoint: nat, caps: seq<bool>): string
    requires IsScalar(codepoint) && |caps| == 8
  {
    if codepoint < 0x10000 then Unit(codepoint, caps[..4])
    else Unit(0xD800 + (codepoint - 0x10000) / 1024, caps[..4]) + Unit(0xDC00 + (codepoint - 0x10000) % 1024, caps[4..])
  }

  lemma UnitAt(c: string, p: nat, n: nat, caps: seq<bool>)
    requires n < 0x10000 && |caps| == 4 && Reads(c, p, Unit(n, caps))
    ensures p + 6 <= |c| && c[p] == BACKSLASH && c[p + 1] == 'u' && Hex4(c[p + 2..p + 6]) == n
  {
    var s := c[p..p + 6];
    assert s == Unit(n, caps) && c[p + 2..p + 6] == s[2..6] == HexText(n, caps);
    assert c[p] == s[0] && c[p + 1] == s[1];
    HexReads(n, caps);
  }

  /** Whatever surrounds it, such an escape is read whole and becomes the encoding of its code point. */
  lemma EscapeDecodes(c: string, p: nat, end: nat, codepoint: nat, caps: seq<bool>)
    requires IsScalar(codepoint) && |caps| == 8
    requires Reads(c, p, EscapeText(codepoint, caps)) && p + |EscapeText(codepoint, caps)| <= end <= |c|
    ensures Utf16Literal(c, p, end) == Some((Utf8(codepoint), |EscapeText(codepoint, caps)|))
  {
    hide Hex4;
    hide Utf8;
    hide HexText;
    hide Utf16Literal;
    if codepoint < 0x10000 {
      UnitLength(codepoint, caps[..4]);
      UnitAt(c, p, codepoint, caps[..4]);
      OneUnit(c, p, end);
    } else {
      PairAt(c, p, codepoint, caps);
      TwoUnits(c, p, end);
    }
  }

  lemma OneUnit(c: string, p: nat, end: nat)
    requires p + 6 <= end <= |c| && IsScalar(Hex4(c[p + 2..p + 6]))
    ensures Utf16Literal(c, p, end) == Some((Utf8(Hex4(c[p + 2..p + 6])), 6))
  {
    hide Hex4;
    hide Utf8;
  }

  lemma TwoUnits(c: string, p: nat, end: nat)
    requires p + 12 <= end <= |c| && c[p + 6] == BACKSLASH && c[p + 7] == 'u'
    requires 0xD800 <= Hex4(c[p + 2..p + 6]) <= 0xDBFF && 0xDC00 <= Hex4(c[p + 8..p + 12]) <= 0xDFFF
    ensures Utf16Literal(c, p, end) ==
      Some((Utf8(0x10000 + (Hex4(c[p + 2..p + 6]) - 0xD800) * 1024 + (Hex4(c[p + 8..p + 12]) - 0xDC00)), 12))
  {
    hide Hex4;
    hide Utf8;
  }

  lemma PairAt(c: string, p: nat, codepoint: nat, caps: seq<bool>)
    requires 0x10000 <= codepoint <= 0x10FFFF && |caps| == 8 && Reads(c, p, EscapeText(codepoint, caps))
    ensures |EscapeText(codepoint, caps)| == 12 && p + 12 <= |c| && c[p + 6] == BACKSLASH && c[p + 7] == 'u'
    ensures Hex4(c[p + 2..p + 6]) == 0xD800 + (codepoint - 0x10000) / 1024
    ensures Hex4(c[p + 8..p + 12]) == 0xDC00 + (codepoint - 0x10000) % 1024
  {
    hide Hex4;
    hide HexText;
    var high, low := 0xD800 + (codepoint - 0x10000) / 1024, 0xDC00 + (codepoint - 0x10000) % 1024;
    var a, b := Unit(high, caps[..4]), Unit(low, caps[4..]);
    UnitLength(high, caps[..4]);
    UnitLength(low, caps[4..]);
    var s := c[p..p + 12];
    assert s == a + b && s[..6] == a && s[6..] == b;
    assert c[p..p + 6] == s[..6] && c[p + 6..p + 12] == s[6..];
    UnitAt(c, p, high, caps[..4]);
    UnitAt(c, p + 6, low, caps[4..]);
  }

  lemma UnitLength(n: nat, caps: seq<bool>)
    requires n < 0x10000 && |caps| == 4
    ensures |Unit(n, caps)| == 6
  {
    hide HexLetter;
  }

  /** A low surrogate without a high one before it is refused. */
  lemma LoneLowSurrogate(c: string, p: nat, end: nat, n: nat, caps: seq<bool>)
    requires 0xDC00 <= n < 0xE000 && |caps| == 4 && Reads(c, p, Unit(n, caps)) && p + 6 <= end <= |c|
    ensures Utf16Literal(c, p, end) == None
  {
    hide Hex4;
    UnitAt(c, p, n, caps);
  }
}
