/**
  The texts that the parser is for: the grammar of RFC 8259 with the liberties that
  cJSON takes, as syntax trees with the text they are written as and the value they
  stand for. White space, escapes and digits are kept as they are written.
 */
module Grammar {
  import opened CStrings
  import opened Decimals
  import opened JsonValues
  import opened JsonText
  import opened ParseSpec
  import opened UnicodeEscapes

  // ----- strings (section 7) -----

  /** A byte as it is, one of the eight short escapes, or a code point in \u escapes. */
  datatype Piece =
    | Plain(c: char)
    | Short(letter: char)
    | Escaped(codepoint: nat, caps: seq<bool>)

  /** What the letter behind a backslash stands for. */
  const SHORT: map<char, char> :=
    map['\"' := '\"', '\\' := '\\', '/' := '/', 'b' := 8 as char, 'f' := 12 as char, 'n' := '\n', 'r' := '\r', 't' := '\t']

  /** The parser takes control characters as they are, which the grammar wants escaped. */
  predicate FitsPiece(p: Piece) {
    match p
    case Plain(c) => c != QUOTE && c != BACKSLASH
    case Short(letter) => letter in SHORT
    case Escaped(codepoint, caps) => IsScalar(codepoint) && |caps| == 8
  }

  function PieceText(p: Piece): string {
    match p
    case Plain(c) => [c]
    case Short(letter) => [BACKSLASH, letter]
    case Escaped(codepoint, caps) => if FitsPiece(p) then EscapeText(codepoint, caps) else ""
  }

  function PieceMeaning(p: Piece): string {
    match p
    case Plain(c) => [c]
    case Short(letter) => if letter in SHORT then [SHORT[letter]] else ""
    case Escaped(codepoint, _) => if codepoint <= 0x10FFFF then Utf8(codepoint) else ""
  }

  predicate FitPieces(ps: seq<Piece>) {
    forall i :: 0 <= i < |ps| ==> FitsPiece(ps[i])
  }

  function PiecesText(ps: seq<Piece>): string {
    if ps == [] then "" else PieceText(ps[0]) + PiecesText(ps[1..])
  }

  function Spelled(ps: seq<Piece>): string {
    if ps == [] then "" else PieceMeaning(ps[0]) + Spelled(ps[1..])
  }

  /**
    A string between its quotes. The parser makes a NUL of a \u without four
    hexadecimal digits, and what follows it (`junk`) is cut off with it.
   */
  datatype Literal = Literal(ps: seq<Piece>, junk: string)

  function LiteralText(l: Literal): string {
    [QUOTE] + (PiecesText(l.ps) + (l.junk + [QUOTE]))
  }

  /** What C sees of the string. */
  function LiteralMeaning(l: Literal): string {
    Truncate(Spelled(l.ps))
  }

  predicate AllHex(s: string) {
    forall i :: 0 <= i < |s| ==> exists d, cap :: 0 <= d < 16 && s[i] == HexLetter(d, cap)
  }

  predicate Sloppy(junk: string) {
    |junk| >= 6 && junk[0] == BACKSLASH && junk[1] == 'u' && !AllHex(junk[2..6])
  }

  // ----- values (sections 2 to 6) -----

  datatype Syntax =
    | Word(v: Json)
    | Int(minus: bool, digits: string)
    | Str(l: Literal)
    | Arr(inner: string, items: seq<Element>)
    | Obj(inner: string, entries: seq<Entry>)

  /** An element between the white space before and after it. */
  datatype Element = Element(before: string, v: Syntax, after: string)

  /** A name, a colon and a value, with white space in all four places. */
  datatype Entry = Entry(before: string, key: Literal, gap: string, lead: string, v: Syntax, after: string)

  function Written(s: Syntax): string
    decreases s
  {
    match s
    case Word(v) => if v.Null? then "null" else if v.False? then "false" else "true"
    case Int(minus, digits) => (if minus then "-" else "") + digits
    case Str(l) => LiteralText(l)
    case Arr(inner, items) => "[" + (if items == [] then inner + "]" else ElementsText(items))
    case Obj(inner, entries) => "{" + (if entries == [] then inner + "}" else EntriesText(entries))
  }

  /** From the white space before the first element up to the closing bracket. */
  function ElementsText(items: seq<Element>): string
    decreases items
  {
    if items == [] then "" else
      items[0].before + (Written(items[0].v) + (items[0].after + (if |items| > 1 then "," + ElementsText(items[1..]) else "]")))
  }

  function EntriesText(entries: seq<Entry>): string
    decreases entries
  {
    if entries == [] then "" else
      EntryText(entries[0], if |entries| > 1 then "," + EntriesText(entries[1..]) else "}")
  }

  /** An entry and what follows it. */
  function EntryText(e: Entry, tail: string): string
    decreases e
  {
    e.before + (LiteralText(e.key) + (e.gap + (":" + (e.lead + (Written(e.v) + (e.after + tail))))))
  }

  /** The 32-bit integer nearest to it. */
  function Nearest(n: int): int {
    if n < INT_MIN then INT_MIN else if n > INT_MAX then INT_MAX else n
  }

  function DigitsValue(digits: string): nat {
    if forall i :: 0 <= i < |digits| ==> IsDigit(digits[i]) then ReadOn(digits, 0) else 0
  }

  function ValueOf(s: Syntax): Json
    decreases s
  {
    match s
    case Word(v) => v
    case Int(minus, digits) => Number(Nearest(if minus then 0 - DigitsValue(digits) else DigitsValue(digits)))
    case Str(l) => String(LiteralMeaning(l))
    case Arr(_, items) => Array(ElementsValue(items))
    case Obj(_, entries) => Object(EntriesValue(entries))
  }

  function ElementsValue(items: seq<Element>): (r: seq<Json>)
    ensures |r| == |items|
    decreases items
  {
    if items == [] then [] else [ValueOf(items[0].v)] + ElementsValue(items[1..])
  }

  function EntryValue(e: Entry): Member
    decreases e
  {
    Member(LiteralMeaning(e.key), ValueOf(e.v))
  }

  function EntriesValue(entries: seq<Entry>): (r: seq<Member>)
    ensures |r| == |entries|
    decreases entries
  {
    if entries == [] then [] else [EntryValue(entries[0])] + EntriesValue(entries[1..])
  }

  // ----- which syntax trees are meant -----

  predicate IsBlank(s: string) {
    forall i :: 0 <= i < |s| ==> s[i] as int <= 32
  }

  /** Leading zeros are taken, and the copy made for strtod holds 63 bytes. */
  predicate FitsInt(minus: bool, digits: string) {
    digits != "" && (forall i :: 0 <= i < |digits| ==> IsDigit(digits[i])) && (if minus then 1 else 0) + |digits| <= 63
  }

  predicate FitsLiteral(l: Literal) {
    FitPieces(l.ps) && (l.junk == "" || Sloppy(l.junk))
  }

  /** White space is blank, tokens are as they should be. */
  predicate Fits(s: Syntax)
    decreases s
  {
    match s
    case Word(v) => v.Null? || v.False? || v.True?
    case Int(minus, digits) => FitsInt(minus, digits)
    case Str(l) => FitsLiteral(l)
    case Arr(inner, items) => IsBlank(inner) && forall i :: 0 <= i < |items| ==> FitsElement(items[i])
    case Obj(inner, entries) => IsBlank(inner) && forall i :: 0 <= i < |entries| ==> FitsEntry(entries[i])
  }

  predicate FitsElement(e: Element)
    decreases e
  {
    IsBlank(e.before) && Fits(e.v) && IsBlank(e.after)
  }

  predicate FitsEntry(e: Entry)
    decreases e
  {
    IsBlank(e.before) && FitsLiteral(e.key) && IsBlank(e.gap) && IsBlank(e.lead) && Fits(e.v) && IsBlank(e.after)
  }

  /** Every \u is followed by its digits. */
  predicate Clean(s: Syntax)
    decreases s
  {
    match s
    case Str(l) => l.junk == ""
    case Arr(_, items) => forall i :: 0 <= i < |items| ==> Clean(items[i].v)
    case Obj(_, entries) => forall i :: 0 <= i < |entries| ==> entries[i].key.junk == "" && Clean(entries[i].v)
    case _ => true
  }
}
