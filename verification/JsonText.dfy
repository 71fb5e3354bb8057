/**
  The text cJSON prints for a tree, formatted and unformatted (RFC 8259).
 */
module JsonText {
  import opened Sequences
  import opened CStrings
  import opened Decimals
  import opened JsonValues

  const INT_MAX: int := 0x7fff_ffff
  const INT_MIN: int := -0x8000_0000
  const QUOTE: char := '\"'
  const BACKSLASH: char := '\\'
  const BACKSPACE: char := 8 as char
  const FORMFEED: char := 12 as char

  /** Trees as C can hold them: NUL-free byte strings, 32-bit integers. */
  predicate IsCJson(j: Json)
    decreases j
  {
    match j
    case Number(n) => INT_MIN <= n <= INT_MAX
    case String(s) => IsCString(s)
    case Array(items) => forall i :: 0 <= i < |items| ==> IsCJson(items[i])
    case Object(ms) => forall i :: 0 <= i < |ms| ==> IsCString(ms[i].key) && IsCJson(ms[i].val)
    case _ => true
  }

  function HexDigit(d: nat): char
    requires d < 16
  {
    if d < 10 then (48 + d) as char else (87 + d) as char
  }

  /** The characters that have a two-byte escape, and the letter used. */
  function ShortEscape(c: char): Option<char> {
    if c == QUOTE || c == BACKSLASH then Some(c)
    else if c == BACKSPACE then Some('b')
    else if c == FORMFEED then Some('f')
    else if c == '\n' then Some('n')
    else if c == '\r' then Some('r')
    else if c == '\t' then Some('t')
    else None
  }

  function EscapeChar(c: char): (r: string)
    ensures 1 <= |r| <= 6
    ensures NUL !in r
  {
    var short := ShortEscape(c);
    if short.Some? then [BACKSLASH, short.value]
    else if c as int < 32 then
      [BACKSLASH, 'u', '0', '0', HexDigit(c as int / 16), HexDigit(c as int % 16)]
    else [c]
  }

  function Escape(s: string): (r: string)
    ensures NUL !in r
  {
    if s == [] then [] else EscapeChar(s[0]) + Escape(s[1..])
  }

  function Quoted(s: string): string {
    [QUOTE] + Escape(s) + [QUOTE]
  }

  function IntText(n: int): string {
    if n < 0 then "-" + Decimal(-n) else Decimal(n)
  }

  function Tabs(n: nat): (r: string)
    ensures |r| == n && NUL !in r
  {
    seq(n, _ => '\t')
  }

  function When(c: bool, s: string): string {
    if c then s else ""
  }

  /** print_value; `depth` is the nesting the value is printed at. */
  function Text(j: Json, format: bool, depth: nat): string
    decreases j
  {
    match j
    case Null => "null"
    case False => "false"
    case True => "true"
    case Number(n) => IntText(n)
    case String(s) => Quoted(s)
    case Array(items) => "[" + ItemsText(items, format, depth + 1) + "]"
    case Object(ms) => ObjectText(ms, format, depth)
  }

  function ObjectText(ms: seq<Member>, format: bool, depth: nat): string
    decreases ms, 1
  {
    Opening(format) + MembersText(ms, format, depth + 1) + Closing(format, depth)
  }

  function Opening(format: bool): string {
    "{" + When(format, "\n")
  }

  function Closing(format: bool, depth: nat): string {
    When(format, Tabs(depth)) + "}"
  }

  function ItemsText(items: seq<Json>, format: bool, depth: nat): string
    decreases items
  {
    if items == [] then ""
    else Text(items[0], format, depth) + Separator(|items| > 1, format) + ItemsText(items[1..], format, depth)
  }

  function Separator(more: bool, format: bool): string {
    When(more, "," + When(format, " "))
  }

  function MembersText(ms: seq<Member>, format: bool, depth: nat): string
    decreases ms, 0
  {
    if ms == [] then ""
    else MemberText(ms[0], format, depth, |ms| > 1) + MembersText(ms[1..], format, depth)
  }

  function MemberText(m: Member, format: bool, depth: nat, more: bool): string
    decreases m
  {
    MemberHead(m.key, format, depth) + Text(m.val, format, depth) + MemberTail(more, format)
  }

  function MemberHead(key: string, format: bool, depth: nat): string {
    When(format, Tabs(depth)) + Quoted(key) + Colon(format)
  }

  function Colon(format: bool): string {
    ":" + When(format, "\t")
  }

  function MemberTail(more: bool, format: bool): string {
    When(more, ",") + When(format, "\n")
  }

  lemma {:induction false} DecimalHasNoNul(n: nat)
    ensures NUL !in Decimal(n)
  {
    assert forall i :: 0 <= i < |Decimal(n)| ==> IsDigit(Decimal(n)[i]);
  }

  lemma {:induction false} TextHasNoNul(j: Json, format: bool, depth: nat)
    ensures NUL !in Text(j, format, depth)
    decreases j
  {
    match j {
      case Number(n) => DecimalHasNoNul(if n < 0 then -n else n);
      case Array(items) => ItemsTextHasNoNul(items, format, depth + 1);
      case Object(ms) => MembersTextHasNoNul(ms, format, depth + 1);
      case _ =>
    }
  }

  lemma {:induction false} ItemsTextHasNoNul(items: seq<Json>, format: bool, depth: nat)
    ensures NUL !in ItemsText(items, format, depth)
    decreases items
  {
    if items != [] {
      TextHasNoNul(items[0], format, depth);
      ItemsTextHasNoNul(items[1..], format, depth);
    }
  }

  lemma {:induction false} MembersTextHasNoNul(ms: seq<Member>, format: bool, depth: nat)
    ensures NUL !in MembersText(ms, format, depth)
    decreases ms
  {
    if ms != [] {
      TextHasNoNul(ms[0].val, format, depth);
      MembersTextHasNoNul(ms[1..], format, depth);
    }
  }

  // ----- layout -----

  lemma OneItem(items: seq<Json>, format: bool, depth: nat)
    requires items != []
    ensures ItemsText(items, format, depth) == Text(items[0], format, depth) +
      if |items| == 1 then "" else (if format then ", " else ",") + ItemsText(items[1..], format, depth)
  {
    hide Text;
    var a, b := Text(items[0], format, depth), ItemsText(items[1..], format, depth);
    assert (a + ", ") + b == a + (", " + b) && (a + ",") + b == a + ("," + b);
    assert "," + " " == ", " && "," + "" == ",";
    if |items| == 1 { assert items[1..] == [] && b == "" && a + "" + "" == a + ""; }
  }

  /** A member a line, behind a tab for each object it is in. */
  lemma MemberLine(ms: seq<Member>, depth: nat)
    requires ms != []
    ensures MembersText(ms, true, depth) ==
      Tabs(depth) + (Quoted(ms[0].key) + (":\t" + (Text(ms[0].val, true, depth) +
      ((if |ms| > 1 then ",\n" else "\n") + MembersText(ms[1..], true, depth)))))
  {
    hide Text;
    hide Quoted;
    hide Tabs;
    var t, q, v, more := Tabs(depth), Quoted(ms[0].key), Text(ms[0].val, true, depth), MembersText(ms[1..], true, depth);
    var tail := if |ms| > 1 then ",\n" else "\n";
    assert ":" + "\t" == ":\t" && "," + "\n" == ",\n" && "" + "\n" == "\n";
    assert MembersText(ms, true, depth) == ((t + q + ":\t") + v + tail) + more;
    hide MembersText;
    Append((t + q + ":\t") + v, tail, more);
    Append(t + q + ":\t", v, tail + more);
    Append(t + q, ":\t", v + (tail + more));
    Append(t, q, ":\t" + (v + (tail + more)));
  }

  /** An object between its braces, the closing one under the line it began on. */
  lemma ObjectLines(ms: seq<Member>, depth: nat)
    ensures Text(Object(ms), true, depth) == "{\n" + (MembersText(ms, true, depth + 1) + (Tabs(depth) + "}"))
  {
    hide MembersText;
    hide Tabs;
    var m, t := MembersText(ms, true, depth + 1), Tabs(depth);
    assert "{" + "\n" == "{\n" && ("{\n" + m) + (t + "}") == "{\n" + (m + (t + "}"));
  }

  lemma ArrayLine(items: seq<Json>, format: bool, depth: nat)
    ensures Text(Array(items), format, depth) == "[" + (ItemsText(items, format, depth + 1) + "]")
  {
    hide ItemsText;
    var t := ItemsText(items, format, depth + 1);
    assert "[" + t + "]" == "[" + (t + "]");
  }
}
