/**
  What the recursive-descent parser reads from a buffer, as functions of the
  buffer and an offset. A result is the value and the offset behind it.
 */
module ParseSpec {
  import opened CStrings
  import opened Decimals
  import opened JsonValues
  import opened JsonText

  const NESTING_LIMIT: nat := 1000

  // ----- white space -----

  function SkipSpaces(c: string, o: nat): (r: nat)
    requires o <= |c|
    ensures o <= r <= |c| && (r < |c| ==> c[r] as int > 32)
    ensures forall i :: o <= i < r ==> c[i] as int <= 32
    decreases |c| - o
  {
    if o < |c| && c[o] as int <= 32 then SkipSpaces(c, o + 1) else o
  }

  /** buffer_skip_whitespace: having skipped everything, it steps back to the last byte. */
  function SkipWhitespace(c: string, o: nat): (r: nat)
    requires o <= |c|
    ensures o <= r <= |c| && (o < |c| ==> r < |c|)
  {
    if o == |c| then o else
      var r := SkipSpaces(c, o);
      if r == |c| then r - 1 else r
  }

  predicate Sees(c: string, o: nat, ch: char) {
    o < |c| && c[o] == ch
  }

  predicate Reads(c: string, o: nat, s: string) {
    o + |s| <= |c| && c[o..o + |s|] == s
  }

  // ----- strings -----

  function HexValue(ch: char): Option<nat> {
    if '0' <= ch <= '9' then Some(ch as int - 48)
    else if 'A' <= ch <= 'F' then Some(ch as int - 55)
    else if 'a' <= ch <= 'f' then Some(ch as int - 87)
    else None
  }

  /** parse_hex4: four digits, or 0 for anything else. */
  function Hex4(s: string): (h: nat)
    requires |s| == 4
    ensures h < 0x10000
  {
    var (a, b, c, d) := (HexValue(s[0]), HexValue(s[1]), HexValue(s[2]), HexValue(s[3]));
    if a.Some? && b.Some? && c.Some? && d.Some? then
      ((a.value * 16 + b.value) * 16 + c.value) * 16 + d.value
    else 0
  }

  function Byte(b: nat): char
    requires b < 256
  {
    b as char
  }

  /** The UTF-8 encoding of a code point. */
  function Utf8(codepoint: nat): string
    requires codepoint <= 0x10FFFF
  {
    if codepoint < 0x80 then [Byte(codepoint)]
    else if codepoint < 0x800 then [Byte(0xC0 + codepoint / 64), Byte(0x80 + codepoint % 64)]
    else if codepoint < 0x10000 then
      [Byte(0xE0 + codepoint / 4096), Byte(0x80 + codepoint / 64 % 64), Byte(0x80 + codepoint % 64)]
    else
      [Byte(0xF0 + codepoint / 262144), Byte(0x80 + codepoint / 4096 % 64),
       Byte(0x80 + codepoint / 64 % 64), Byte(0x80 + codepoint % 64)]
  }

  /** utf16_literal_to_utf8 for the literal at p: its bytes and the length of the literal. */
  function Utf16Literal(c: string, p: nat, end: nat): (r: Option<(string, nat)>)
    requires p <= end <= |c|
    ensures r.Some? ==> 6 <= r.value.1 && p + r.value.1 <= end
  {
    if end - p < 6 then None else
      var first := Hex4(c[p + 2..p + 6]);
      if 0xDC00 <= first <= 0xDFFF then None
      else if 0xD800 <= first <= 0xDBFF then
        if end - (p + 6) < 6 || c[p + 6] != BACKSLASH || c[p + 7] != 'u' then None else
          var second := Hex4(c[p + 8..p + 12]);
          if second < 0xDC00 || second > 0xDFFF then None
          else Some((Utf8(0x10000 + (first - 0xD800) * 1024 + (second - 0xDC00)), 12))
      else Some((Utf8(first), 6))
  }

  /** The first pass of parse_string: the place of the closing quote. */
  function ScanString(c: string, p: nat): (r: Option<nat>)
    ensures r.Some? ==> p <= r.value < |c| && c[r.value] == QUOTE
    decreases |c| - p
  {
    if p >= |c| then None
    else if c[p] == QUOTE then Some(p)
    else if c[p] == BACKSLASH then if p + 1 >= |c| then None else ScanString(c, p + 2)
    else ScanString(c, p + 1)
  }

  /** How many escapes the first pass meets between i and the closing quote. */
  function Escapes(c: string, i: nat, end: nat): nat
    requires end <= |c|
    decreases if i < end then end - i else 0
  {
    if i >= end then 0 else if c[i] == BACKSLASH then 1 + Escapes(c, i + 2, end) else Escapes(c, i + 1, end)
  }

  function Unshort(ch: char): Option<char> {
    if ch == 'b' then Some(BACKSPACE)
    else if ch == 'f' then Some(FORMFEED)
    else if ch == 'n' then Some('\n')
    else if ch == 'r' then Some('\r')
    else if ch == 't' then Some('\t')
    else if ch == QUOTE || ch == BACKSLASH || ch == '/' then Some(ch)
    else None
  }

  /** The second pass: the bytes of the string literal between p and its end. */
  function Unescape(c: string, p: nat, end: nat): Option<string>
    requires end < |c|
    decreases if p < end then end - p else 0
  {
    if p >= end then Some("") else
      var step := UnescapeOne(c, p, end);
      if step.None? then None else Joined(step.value.0, Unescape(c, p + step.value.1, end))
  }

  function Joined(s: string, r: Option<string>): Option<string> {
    if r.None? then None else Some(s + r.value)
  }

  /** One turn of its loop: the bytes written and the bytes read. */
  function UnescapeOne(c: string, p: nat, end: nat): (r: Option<(string, nat)>)
    requires p < end < |c|
    ensures r.Some? ==> r.value.1 > 0
  {
    if c[p] != BACKSLASH then Some(([c[p]], 1))
    else if c[p + 1] == 'u' then Utf16Literal(c, p, end)
    else
      var short := Unshort(c[p + 1]);
      if short.None? then None else Some(([short.value], 2))
  }

  function ParseString(c: string, o: nat): (r: Option<(string, nat)>)
    requires o < |c|
    ensures r.Some? ==> o < r.value.1 <= |c|
  {
    if c[o] != QUOTE then None else
      var end := ScanString(c, o + 1);
      if end.None? then None else
        var s := Unescape(c, o + 1, end.value);
        if s.None? then None else Some((Truncate(s.value), end.value + 1))
  }

  // ----- numbers -----

  predicate IsNumberChar(ch: char) {
    IsDigit(ch) || ch in "+-eE."
  }

  /** The bytes copied into the 64-byte buffer for strtod. */
  function NumberRun(c: string, o: nat, room: nat): (r: nat)
    ensures r <= room && (r > 0 ==> o + r <= |c|)
    decreases |c| - o
  {
    if room > 0 && o < |c| && IsNumberChar(c[o]) then 1 + NumberRun(c, o + 1, room - 1) else 0
  }

  function DigitRun(s: string): (r: nat)
    ensures r <= |s| && forall i :: 0 <= i < r ==> IsDigit(s[i])
    ensures r < |s| ==> !IsDigit(s[r])
  {
    if s == [] || !IsDigit(s[0]) then 0 else 1 + DigitRun(s[1..])
  }

  /** strtod on an integer, and how much of the text it takes. */
  function Strtod(s: string): (r: Option<(int, nat)>)
    ensures r.Some? ==> 0 < r.value.1 <= |s|
  {
    var sign := if s != [] && (s[0] == '-' || s[0] == '+') then 1 else 0;
    var digits := DigitRun(s[sign..]);
    if digits == 0 then None else
      var v: int := ReadOn(s[sign..][..digits], 0);
      Some((if sign == 1 && s[0] == '-' then -v else v, sign + digits))
  }

  function Saturate(n: int): int {
    if n >= INT_MAX then INT_MAX else if n <= INT_MIN then INT_MIN else n
  }

  function ParseNumber(c: string, o: nat): (r: Option<(Json, nat)>)
    requires o < |c|
    ensures r.Some? ==> o < r.value.1 <= |c|
  {
    var n := Strtod(c[o..o + NumberRun(c, o, 63)]);
    if n.None? then None else Some((Number(Saturate(n.value.0)), o + n.value.1))
  }

  // ----- values -----

  function ParseValue(c: string, o: nat, depth: nat): (r: Option<(Json, nat)>)
    requires o <= |c|
    ensures r.Some? ==> o < r.value.1 <= |c|
    decreases |c| - o, 2
  {
    if Reads(c, o, "null") then Some((Null, o + 4))
    else if Reads(c, o, "false") then Some((False, o + 5))
    else if Reads(c, o, "true") then Some((True, o + 4))
    else if o == |c| then None
    else if c[o] == QUOTE then
      var s := ParseString(c, o);
      if s.None? then None else Some((String(s.value.0), s.value.1))
    else if c[o] == '-' || IsDigit(c[o]) then ParseNumber(c, o)
    else if c[o] == '[' then ParseArray(c, o, depth)
    else if c[o] == '{' then ParseObject(c, o, depth)
    else None
  }

  function ParseArray(c: string, o: nat, depth: nat): (r: Option<(Json, nat)>)
    requires o < |c|
    ensures r.Some? ==> o < r.value.1 <= |c|
    decreases |c| - o, 1
  {
    if depth >= NESTING_LIMIT then None else
      var first := SkipWhitespace(c, o + 1);
      if Sees(c, first, ']') then Some((Array([]), first + 1))
      else if first == |c| then None
      else
        var items := ParseItems(c, first - 1, depth + 1);
        if items.None? then None else Some((Array(items.value.0), items.value.1))
  }

  function Prepend<T>(xs: seq<T>, r: Option<(seq<T>, nat)>): Option<(seq<T>, nat)> {
    if r.None? then None else Some((xs + r.value.0, r.value.1))
  }

  /** The loop over the elements; o is the byte before the next one, a bracket or a comma at first. */
  function ParseItems(c: string, o: nat, depth: nat): (r: Option<(seq<Json>, nat)>)
    requires o < |c|
    ensures r.Some? ==> o < r.value.1 <= |c|
    decreases |c| - o, 0
  {
    var v := ParseValue(c, SkipWhitespace(c, o + 1), depth);
    if v.None? then None else
      var next := SkipWhitespace(c, v.value.1);
      if Sees(c, next, ',') then
        Prepend([v.value.0], ParseItems(c, next, depth))
      else if Sees(c, next, ']') then Some(([v.value.0], next + 1))
      else None
  }

  function ParseObject(c: string, o: nat, depth: nat): (r: Option<(Json, nat)>)
    requires o < |c|
    ensures r.Some? ==> o < r.value.1 <= |c|
    decreases |c| - o, 1
  {
    if depth >= NESTING_LIMIT then None else
      var first := SkipWhitespace(c, o + 1);
      if Sees(c, first, '}') then Some((Object([]), first + 1))
      else if first == |c| then None
      else
        var ms := ParseMembers(c, first - 1, depth + 1);
        if ms.None? then None else Some((Object(ms.value.0), ms.value.1))
  }

  function ParseMembers(c: string, o: nat, depth: nat): (r: Option<(seq<Member>, nat)>)
    requires o < |c|
    ensures r.Some? ==> o < r.value.1 <= |c|
    decreases |c| - o, 0
  {
    var m := ParseMember(c, o, depth);
    if m.None? then None else
      var next := SkipWhitespace(c, m.value.1);
      if Sees(c, next, ',') then
        Prepend([m.value.0], ParseMembers(c, next, depth))
      else if Sees(c, next, '}') then Some(([m.value.0], next + 1))
      else None
  }

  function ParseMember(c: string, o: nat, depth: nat): (r: Option<(Member, nat)>)
    requires o < |c|
    ensures r.Some? ==> o < r.value.1 <= |c|
    decreases |c| - o, 0, 0
  {
    var key := ParseKey(c, o);
    if key.None? then None else
      var v := ParseValue(c, SkipWhitespace(c, key.value.1), depth);
      if v.None? then None else Some((Member(key.value.0, v.value.0), v.value.1))
  }

  /** The name of a member, and the offset behind its colon. */
  function ParseKey(c: string, o: nat): (r: Option<(string, nat)>)
    requires o < |c|
    ensures r.Some? ==> o < r.value.1 <= |c|
  {
    if o + 1 >= |c| then None else
      var key := ParseString(c, SkipWhitespace(c, o + 1));
      if key.None? then None else
        var colon := SkipWhitespace(c, key.value.1);
        if Sees(c, colon, ':') then Some((key.value.0, colon + 1)) else None
  }

  /** cJSON_ParseWithLengthOpts on the bytes `c`. */
  function ParseBytes(c: string, requireTerminator: bool): Option<Json> {
    if c == [] then None else
      var bom := if |c| > 4 && Reads(c, 0, [0xEF as char, 0xBB as char, 0xBF as char]) then 3 else 0;
      var v := ParseValue(c, SkipWhitespace(c, bom), 0);
      if v.None? then None
      else if requireTerminator && !Sees(c, SkipWhitespace(c, v.value.1), NUL) then None
      else Some(v.value.0)
  }
}
