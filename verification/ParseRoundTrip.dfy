/**
  Parsing what was printed gives the tree back, formatted or not: the printed text is
  a text of the grammar, which stands for the tree.
 */
module ParseRoundTrip {
  import opened Sequences
  import opened CStrings
  import opened Decimals
  import opened JsonValues
  import opened JsonText
  import opened ParseSpec
  import opened UnicodeEscapes
  import opened Grammar
  import opened StringGrammar
  import opened ValueGrammar

  // ----- printed strings and numbers -----

  const SMALL := [false, false, false, false, false, false, false, false]

  /** How the printer writes a byte. */
  function PieceOf(ch: char): Piece {
    var short := ShortEscape(ch);
    if short.Some? then Short(short.value) else if ch as int < 32 then Escaped(ch as int, SMALL) else Plain(ch)
  }

  lemma SmallHex(d: nat)
    requires d < 16
    ensures HexLetter(d, false) == HexDigit(d)
  {
  }

  lemma PieceOfByte(ch: char)
    ensures FitsPiece(PieceOf(ch)) && PieceText(PieceOf(ch)) == EscapeChar(ch) && PieceMeaning(PieceOf(ch)) == [ch]
  {
    var n := ch as int;
    if ShortEscape(ch).None? && n < 32 {
      hide HexLetter;
      SmallHex(0);
      SmallHex(n / 16);
      SmallHex(n % 16);
      assert SMALL[..4] == [false, false, false, false];
      assert n / 4096 == 0 && n / 256 % 16 == 0 && n / 16 % 16 == n / 16;
      assert Utf8(n) == [ch];
    }
  }

  function PiecesOf(s: string): seq<Piece> {
    if s == "" then [] else [PieceOf(s[0])] + PiecesOf(s[1..])
  }

  lemma {:induction false} PiecesOfString(s: string)
    ensures var ps := PiecesOf(s); FitPieces(ps) && PiecesText(ps) == Escape(s) && Spelled(ps) == s
  {
    hide PieceOf;
    hide FitsPiece;
    hide PieceText;
    hide PieceMeaning;
    hide EscapeChar;
    if s != "" {
      PieceOfByte(s[0]);
      PiecesOfString(s[1..]);
      assert PiecesOf(s)[1..] == PiecesOf(s[1..]) && [s[0]] + s[1..] == s;
    }
  }

  function LiteralOf(s: string): Literal {
    Literal(PiecesOf(s), "")
  }

  lemma QuotedIsLiteral(s: string)
    requires IsCString(s)
    ensures var l := LiteralOf(s);
      FitsLiteral(l) && l.junk == "" && LiteralText(l) == Quoted(s) && LiteralMeaning(l) == s
  {
    PiecesOfString(s);
    TruncateCString(s, "");
    assert "" + [QUOTE] == [QUOTE];
    Append([QUOTE], Escape(s), [QUOTE]);
  }

  lemma ParsesQuoted(c: string, o: nat, s: string)
    requires IsCString(s) && Reads(c, o, Quoted(s))
    ensures o < |c| && c[o] == QUOTE
    ensures var r := ParseString(c, o); r.Some? && r.value.0 == s && r.value.1 == o + |Quoted(s)|
  {
    QuotedIsLiteral(s);
    ReadsLiteral(c, o, LiteralOf(s));
  }

  function DigitsOf(n: int): string {
    Decimal(if n < 0 then -n else n)
  }

  lemma IntIsWritten(n: int)
    requires INT_MIN <= n <= INT_MAX
    ensures FitsInt(n < 0, DigitsOf(n)) && Written(Int(n < 0, DigitsOf(n))) == IntText(n)
    ensures ValueOf(Int(n < 0, DigitsOf(n))) == Number(n)
  {
    var m: nat := if n < 0 then -n else n;
    assert Power10(10) == 10000000000 by {
      assert Power10(3) == 1000;
      assert Power10(6) == 1000 * Power10(3);
      assert Power10(9) == 1000 * Power10(6);
    }
    DecimalLength(m, 10, Power10(10));
    ReadDecimal(m);
  }

  lemma ParsesInt(c: string, o: nat, n: int)
    requires INT_MIN <= n <= INT_MAX && Reads(c, o, IntText(n))
    requires o + |IntText(n)| < |c| ==> !IsNumberChar(c[o + |IntText(n)|])
    ensures o < |c| && (c[o] == '-' || IsDigit(c[o]))
    ensures var r := ParseNumber(c, o); r.Some? && r.value.0 == Number(n) && r.value.1 == o + |IntText(n)|
  {
    IntIsWritten(n);
    ReadsInt(c, o, n < 0, DigitsOf(n));
  }

  // ----- printed trees -----

  /** The white space between the brace or comma before a member and its name. */
  function Lead(format: bool, k: nat): string {
    When(format, "\n") + When(format, Tabs(k))
  }

  lemma LeadIsBlank(format: bool, k: nat)
    ensures IsBlank(Lead(format, k))
  {
  }

  /** The text of an object from the name of a member up to the closing brace. */
  function FromName(ms: seq<Member>, format: bool, k: nat): string
    requires ms != [] && k > 0
    decreases |ms|, 1
  {
    Quoted(ms[0].key) + (":" + (When(format, "\t") + (Text(ms[0].val, format, k) + AfterMember(ms, format, k))))
  }

  function AfterMember(ms: seq<Member>, format: bool, k: nat): string
    requires ms != [] && k > 0
    decreases |ms|, 0
  {
    if |ms| > 1 then "," + (Lead(format, k) + FromName(ms[1..], format, k)) else Lead(format, k - 1) + "}"
  }

  lemma Regroup(a: string, b: string, c: string, d: string, e: string, f: string, g: string, h: string)
    ensures (((a + b + (c + d)) + e + (f + g)) + h) == a + (b + (c + (d + (e + (f + (g + h))))))
  {
    Append((a + b + (c + d)) + e, f + g, h);
    Append(f, g, h);
    Append(a + b + (c + d), e, f + (g + h));
    Append(a + b, c + d, e + (f + (g + h)));
    Append(c, d, e + (f + (g + h)));
    Append(a, b, c + (d + (e + (f + (g + h)))));
  }

  lemma {:induction false} MembersFromName(ms: seq<Member>, format: bool, k: nat)
    requires ms != [] && k > 0
    ensures MembersText(ms, format, k) + Closing(format, k - 1) == When(format, Tabs(k)) + FromName(ms, format, k)
    decreases |ms|
  {
    hide Text;
    hide Quoted;
    hide Tabs;
    var newline, tabs, key, tab := When(format, "\n"), When(format, Tabs(k)), Quoted(ms[0].key), When(format, "\t");
    var val, comma := Text(ms[0].val, format, k), When(|ms| > 1, ",");
    var more, close := MembersText(ms[1..], format, k), Closing(format, k - 1);
    Append(MemberText(ms[0], format, k, |ms| > 1), more, close);
    Regroup(tabs, key, ":", tab, val, comma, newline, more + close);
    assert AfterMember(ms, format, k) == comma + (newline + (more + close)) by {
      if |ms| > 1 {
        MembersFromName(ms[1..], format, k);
        Append(newline, tabs, FromName(ms[1..], format, k));
      } else {
        assert more == "" && more + close == close;
        Append(newline, When(format, Tabs(k - 1)), "}");
        assert "" + AfterMember(ms, format, k) == AfterMember(ms, format, k);
      }
    }
  }

  lemma ObjectFromName(ms: seq<Member>, format: bool, k: nat)
    requires ms != []
    ensures ObjectText(ms, format, k) == "{" + (Lead(format, k + 1) + FromName(ms, format, k + 1))
  {
    hide MembersText;
    hide FromName;
    hide Tabs;
    var newline, tabs, from := When(format, "\n"), When(format, Tabs(k + 1)), FromName(ms, format, k + 1);
    MembersFromName(ms, format, k + 1);
    Append(Opening(format), MembersText(ms, format, k + 1), Closing(format, k));
    Append("{", newline, tabs + from);
    Append(newline, tabs, from);
  }

  lemma NameThenAfter(ms: seq<Member>, format: bool, k: nat)
    requires ms != [] && k > 0
    ensures FromName(ms, format, k) ==
      Quoted(ms[0].key) + (":" + (When(format, "\t") + (Text(ms[0].val, format, k) + AfterMember(ms, format, k))))
    ensures FromName(ms, format, k)[0] == QUOTE
    ensures AfterMember(ms, format, k) != [] && !IsNumberChar(AfterMember(ms, format, k)[0])
  {
  }

  lemma EmptyObjectText(format: bool, k: nat)
    ensures ObjectText([], format, k) == "{" + (Lead(format, k) + "}")
  {
  }

  /** The text that is printed, as it is written. */
  function Printed(j: Json, format: bool, k: nat): Syntax
    decreases j
  {
    match j
    case Number(n) => Int(n < 0, DigitsOf(n))
    case String(s) => Str(LiteralOf(s))
    case Array(items) => Arr("", PrintedItems(items, "", format, k + 1))
    case Object(ms) => Obj(Lead(format, k), PrintedMembers(ms, Lead(format, k + 1), format, k + 1))
    case _ => Word(j)
  }

  function PrintedItems(items: seq<Json>, before: string, format: bool, k: nat): (r: seq<Element>)
    ensures |r| == |items|
    decreases items
  {
    if items == [] then [] else
      [Element(before, Printed(items[0], format, k), "")] + PrintedItems(items[1..], When(format, " "), format, k)
  }

  function PrintedMembers(ms: seq<Member>, before: string, format: bool, k: nat): (r: seq<Entry>)
    requires k > 0
    ensures |r| == |ms|
    decreases ms
  {
    if ms == [] then [] else
      [PrintedMember(ms[0], before, if |ms| > 1 then "" else Lead(format, k - 1), format, k)] +
      PrintedMembers(ms[1..], Lead(format, k), format, k)
  }

  function PrintedMember(m: Member, before: string, after: string, format: bool, k: nat): Entry
    decreases m
  {
    Entry(before, LiteralOf(m.key), "", When(format, "\t"), Printed(m.val, format, k), after)
  }

  /** A printed tree is a text of the grammar, and stands for the tree. */
  lemma {:induction false} PrintedIsWritten(j: Json, format: bool, k: nat)
    requires IsCJson(j)
    ensures var s := Printed(j, format, k); Fits(s) && Clean(s) && Written(s) == Text(j, format, k) && ValueOf(s) == j
    decreases j, 1
  {
    match j {
      case Number(n) => IntIsWritten(n);
      case String(s) => QuotedIsLiteral(s);
      case Array(items) => PrintedArray(items, format, k);
      case Object(ms) => PrintedObject(ms, format, k);
      case _ =>
    }
  }

  lemma {:induction false} PrintedArray(items: seq<Json>, format: bool, k: nat)
    requires IsCJson(Array(items))
    ensures var s := Printed(Array(items), format, k);
      Fits(s) && Clean(s) && Written(s) == Text(Array(items), format, k) && ValueOf(s) == Array(items)
    decreases items, 3
  {
    hide ElementsText;
    hide ElementsValue;
    hide ItemsText;
    ItemsWritten(items, "", format, k + 1);
    if items == [] {
      NoElements();
      assert ItemsText(items, format, k + 1) == "" by { NoItems(format, k + 1); }
      assert "[" + "" + "]" == "[" + ("" + "]");
    } else {
      Append("[", ItemsText(items, format, k + 1), "]");
      assert "" + (ItemsText(items, format, k + 1) + "]") == ItemsText(items, format, k + 1) + "]";
    }
  }

  lemma NoItems(format: bool, k: nat)
    ensures ItemsText([], format, k) == ""
  {
  }

  lemma {:induction false} ItemsWritten(items: seq<Json>, before: string, format: bool, k: nat)
    requires IsCJson(Array(items)) && IsBlank(before)
    ensures var es := PrintedItems(items, before, format, k);
      (forall i :: 0 <= i < |es| ==> FitsElement(es[i]) && Clean(es[i].v)) && ElementsValue(es) == items &&
      (items != [] ==> ElementsText(es) == before + (ItemsText(items, format, k) + "]"))
    decreases items, 2
  {
    hide Text;
    hide Written;
    hide ItemsText;
    hide ElementsText;
    hide Clean;
    hide Fits;
    if items != [] {
      var es, rest := PrintedItems(items, before, format, k), PrintedItems(items[1..], When(format, " "), format, k);
      PrintedIsWritten(items[0], format, k);
      ItemsWritten(items[1..], When(format, " "), format, k);
      assert es[1..] == rest && [items[0]] + items[1..] == items;
      ElementsStart(es);
      assert forall i :: 0 < i < |es| ==> es[i] == rest[i - 1];
      ItemsTail(items, es, format, k);
    }
  }

  lemma ItemsTail(items: seq<Json>, es: seq<Element>, format: bool, k: nat)
    requires items != [] && |es| == |items| && es[0].after == ""
    requires |items| > 1 ==> ElementsText(es[1..]) == When(format, " ") + (ItemsText(items[1..], format, k) + "]")
    ensures Text(items[0], format, k) + ElementsTail(es) == ItemsText(items, format, k) + "]"
  {
    hide Text;
    hide ElementsText;
    var a, b, c := Text(items[0], format, k), When(format, " "), ItemsText(items[1..], format, k);
    if |items| > 1 {
      assert a + ("," + b) + c + "]" == a + ("," + (b + (c + "]")));
      assert "" + ("," + ElementsText(es[1..])) == "," + ElementsText(es[1..]);
    } else {
      assert items[1..] == [] && c == "";
      assert "" + "]" == "]" && a + "" + "" == a;
    }
  }

  lemma {:induction false} PrintedObject(ms: seq<Member>, format: bool, k: nat)
    requires IsCJson(Object(ms))
    ensures var s := Printed(Object(ms), format, k);
      Fits(s) && Clean(s) && Written(s) == Text(Object(ms), format, k) && ValueOf(s) == Object(ms)
    decreases ms, 5
  {
    hide EntriesText;
    hide EntriesValue;
    hide ObjectText;
    hide FromName;
    hide Lead;
    hide IsBlank;
    LeadIsBlank(format, k);
    LeadIsBlank(format, k + 1);
    MembersWritten(ms, Lead(format, k + 1), format, k + 1);
    if ms == [] {
      NoEntries();
      EmptyObjectText(format, k);
    } else {
      ObjectFromName(ms, format, k);
    }
  }

  lemma {:induction false} MembersWritten(ms: seq<Member>, before: string, format: bool, k: nat)
    requires IsCJson(Object(ms)) && IsBlank(before) && k > 0
    ensures var es := PrintedMembers(ms, before, format, k);
      (forall i :: 0 <= i < |es| ==> FitsEntry(es[i]) && es[i].key.junk == "" && Clean(es[i].v)) && EntriesValue(es) == ms &&
      (ms != [] ==> EntriesText(es) == before + FromName(ms, format, k))
    decreases ms, 4
  {
    hide FromName;
    hide AfterMember;
    hide EntriesText;
    hide EntryText;
    hide FitsEntry;
    hide EntryValue;
    hide Clean;
    hide Lead;
    hide IsBlank;
    if ms != [] {
      var es, rest := PrintedMembers(ms, before, format, k), PrintedMembers(ms[1..], Lead(format, k), format, k);
      LeadIsBlank(format, k);
      LeadIsBlank(format, k - 1);
      NothingIsBlank();
      MembersWritten(ms[1..], Lead(format, k), format, k);
      MemberWritten(ms[0], es[0], before, if |ms| > 1 then "" else Lead(format, k - 1), format, k);
      assert es[1..] == rest && [ms[0]] + ms[1..] == ms;
      EntriesStart(es);
      assert forall i :: 0 < i < |es| ==> es[i] == rest[i - 1];
      MembersTail(ms, es, before, format, k);
    }
  }

  lemma {:induction false} MemberWritten(m: Member, e: Entry, before: string, after: string, format: bool, k: nat)
    requires IsCString(m.key) && IsCJson(m.val) && IsBlank(before) && IsBlank(after) && e == PrintedMember(m, before, after, format, k)
    ensures FitsEntry(e) && e.key.junk == "" && Clean(e.v) && EntryValue(e) == m
    ensures LiteralText(e.key) == Quoted(m.key) && Written(e.v) == Text(m.val, format, k)
    decreases m, 3
  {
    hide Written;
    hide Text;
    hide LiteralText;
    hide LiteralMeaning;
    hide FitsLiteral;
    hide Fits;
    QuotedIsLiteral(m.key);
    PrintedIsWritten(m.val, format, k);
  }

  lemma MembersTail(ms: seq<Member>, es: seq<Entry>, before: string, format: bool, k: nat)
    requires ms != [] && k > 0 && |es| == |ms|
    requires es[0].before == before && es[0].gap == "" && es[0].lead == When(format, "\t")
    requires es[0].after == if |ms| > 1 then "" else Lead(format, k - 1)
    requires LiteralText(es[0].key) == Quoted(ms[0].key) && Written(es[0].v) == Text(ms[0].val, format, k)
    requires |ms| > 1 ==> EntriesText(es[1..]) == Lead(format, k) + FromName(ms[1..], format, k)
    ensures before + (LiteralText(es[0].key) + EntryTail(es[0], EntriesTail(es))) == before + FromName(ms, format, k)
  {
    hide EntriesText;
    hide Written;
    hide Text;
    hide LiteralText;
    hide Quoted;
    hide Lead;
    NameThenAfter(ms, format, k);
    var e, tail := es[0], EntriesTail(es);
    hide FromName;
    assert e.after + tail == AfterMember(ms, format, k) by {
      if |ms| > 1 { assert "" + tail == tail; }
    }
    var rest := ":" + (e.lead + (Written(e.v) + (e.after + tail)));
    assert "" + rest == rest;
  }

  lemma NothingIsBlank()
    ensures IsBlank("")
  {
  }

  lemma FirstChar(j: Json, format: bool, k: nat)
    ensures var t := Text(j, format, k); t != [] && t[0] as int > 32 && t[0] != ']' && t[0] != '}'
  {
    match j {
      case Number(n) =>
        var digits := Decimal(if n < 0 then -n else n);
        assert IsDigit(digits[0]);
      case _ =>
    }
  }

  lemma ParsesText(c: string, o: nat, j: Json, format: bool, k: nat, d: nat)
    requires IsCJson(j) && d + Depth(j) <= NESTING_LIMIT
    requires Reads(c, o, Text(j, format, k)) && Ends(c, o + |Text(j, format, k)|)
    ensures var r := ParseValue(c, o, d); r.Some? && r.value.0 == j && r.value.1 == o + |Text(j, format, k)|
  {
    hide ParseValue;
    hide Printed;
    hide Written;
    hide ValueOf;
    hide Fits;
    hide Clean;
    hide Text;
    hide Reads;
    PrintedIsWritten(j, format, k);
    ReadsWritten(c, o, Printed(j, format, k), d);
  }

  /** The members of a printed object, up to and with the closing brace. */
  lemma ParsesMembers(c: string, o: nat, blank: string, ms: seq<Member>, format: bool, k: nat, d: nat)
    requires ms != [] && k > 0 && IsCJson(Object(ms)) && d + MembersDepth(ms) <= NESTING_LIMIT
    requires IsBlank(blank) && o < |c| && Reads(c, o + 1, blank + FromName(ms, format, k))
    ensures var r := ParseMembers(c, o, d);
      r.Some? && r.value.0 == ms && r.value.1 == o + 1 + |blank + FromName(ms, format, k)|
  {
    hide ParseMembers;
    hide FromName;
    MembersWritten(ms, blank, format, k);
    ReadsEntries(c, o, PrintedMembers(ms, blank, format, k), d);
  }

  // ----- nesting -----

  /** Whatever the bytes are, a tree that comes out nests no deeper than the limit. */
  lemma {:induction false} NestingBounded(c: string, o: nat, d: nat)
    requires o <= |c| && d <= NESTING_LIMIT && ParseValue(c, o, d).Some?
    ensures d + Depth(ParseValue(c, o, d).value.0) <= NESTING_LIMIT
    decreases |c| - o, 2
  {
    hide ParseArray;
    hide ParseObject;
    hide ParseString;
    hide ParseNumber;
    if o < |c| && c[o] == '[' {
      NoLiteral(c, o);
      ArrayBounded(c, o, d);
    } else if o < |c| && c[o] == '{' {
      NoLiteral(c, o);
      ObjectBounded(c, o, d);
    } else {
      Scalar(c, o, d);
    }
  }

  lemma Scalar(c: string, o: nat, d: nat)
    requires o <= |c| && ParseValue(c, o, d).Some? && (o < |c| ==> c[o] != '[' && c[o] != '{')
    ensures Depth(ParseValue(c, o, d).value.0) == 0
  {
    hide ParseArray;
    hide ParseObject;
    hide ParseString;
    hide Reads;
  }

  lemma {:induction false} ArrayBounded(c: string, o: nat, d: nat)
    requires o < |c| && d <= NESTING_LIMIT && ParseArray(c, o, d).Some?
    ensures d + Depth(ParseArray(c, o, d).value.0) <= NESTING_LIMIT
    decreases |c| - o, 1
  {
    hide ParseItems;
    var first := SkipWhitespace(c, o + 1);
    if !Sees(c, first, ']') { ItemsBounded(c, first - 1, d + 1); }
  }

  lemma {:induction false} ObjectBounded(c: string, o: nat, d: nat)
    requires o < |c| && d <= NESTING_LIMIT && ParseObject(c, o, d).Some?
    ensures d + Depth(ParseObject(c, o, d).value.0) <= NESTING_LIMIT
    decreases |c| - o, 1
  {
    hide ParseMembers;
    var first := SkipWhitespace(c, o + 1);
    if !Sees(c, first, '}') { MembersBounded(c, first - 1, d + 1); }
  }

  lemma {:induction false} ItemsBounded(c: string, o: nat, d: nat)
    requires o < |c| && d <= NESTING_LIMIT && ParseItems(c, o, d).Some?
    ensures d + ItemsDepth(ParseItems(c, o, d).value.0) <= NESTING_LIMIT
    decreases |c| - o, 0
  {
    hide ParseValue;
    var p := SkipWhitespace(c, o + 1);
    var v := ParseValue(c, p, d);
    var next := SkipWhitespace(c, v.value.1);
    NestingBounded(c, p, d);
    if Sees(c, next, ',') {
      var more := ParseItems(c, next, d).value.0;
      ItemsBounded(c, next, d);
      assert ParseItems(c, o, d).value.0 == [v.value.0] + more && ([v.value.0] + more)[1..] == more;
    } else {
      assert ParseItems(c, o, d).value.0 == [v.value.0];
      assert ItemsDepth([v.value.0][1..]) == 0;
    }
  }

  lemma {:induction false} MembersBounded(c: string, o: nat, d: nat)
    requires o < |c| && d <= NESTING_LIMIT && ParseMembers(c, o, d).Some?
    ensures d + MembersDepth(ParseMembers(c, o, d).value.0) <= NESTING_LIMIT
    decreases |c| - o, 0
  {
    hide ParseValue;
    hide ParseKey;
    var m, key := ParseMember(c, o, d), ParseKey(c, o);
    var next := SkipWhitespace(c, m.value.1);
    var p := SkipWhitespace(c, key.value.1);
    NestingBounded(c, p, d);
    if Sees(c, next, ',') {
      var more := ParseMembers(c, next, d).value.0;
      MembersBounded(c, next, d);
      assert ParseMembers(c, o, d).value.0 == [m.value.0] + more && ([m.value.0] + more)[1..] == more;
    } else {
      assert ParseMembers(c, o, d).value.0 == [m.value.0];
      assert MembersDepth([m.value.0][1..]) == 0;
    }
  }

  /**
    cJSON_Parse of the printed C string, terminator included, is the tree that was
    printed, exactly when the tree nests no deeper than the parser allows.
   */
  lemma PrintThenParse(j: Json, format: bool, requireTerminator: bool)
    requires IsCJson(j)
    ensures ParseBytes(Text(j, format, 0) + [NUL], requireTerminator) == Some(j) <==> Depth(j) <= NESTING_LIMIT
  {
    var c := Text(j, format, 0) + [NUL];
    StartsPlainly(j, format);
    if Depth(j) <= NESTING_LIMIT {
      PrintedParses(j, format, requireTerminator);
    } else if ParseValue(c, 0, 0).Some? {
      NestingBounded(c, 0, 0);
    }
  }

  lemma StartsPlainly(j: Json, format: bool)
    ensures var c := Text(j, format, 0) + [NUL];
      !Reads(c, 0, [0xEF as char, 0xBB as char, 0xBF as char]) && SkipWhitespace(c, 0) == 0
  {
    var t := Text(j, format, 0);
    var c := t + [NUL];
    FirstChar(j, format, 0);
    assert c[0] == t[0];
    PlainStart(j, format);
    if Reads(c, 0, [0xEF as char, 0xBB as char, 0xBF as char]) { ReadsHead(c, 0, [0xEF as char, 0xBB as char, 0xBF as char]); }
    StandsAt(c, 0);
  }

  lemma PrintedParses(j: Json, format: bool, requireTerminator: bool)
    requires IsCJson(j) && Depth(j) <= NESTING_LIMIT
    ensures ParseBytes(Text(j, format, 0) + [NUL], requireTerminator) == Some(j)
  {
    hide Text;
    hide ParseValue;
    var t := Text(j, format, 0);
    var c := t + [NUL];
    StartsPlainly(j, format);
    assert c[0..|t|] == t;
    ParsesText(c, 0, j, format, 0, 0);
    assert SkipSpaces(c, |t| + 1) == |t| + 1;
    assert SkipSpaces(c, |t|) == |t| + 1;
    assert SkipWhitespace(c, |t|) == |t|;
  }

  /** No printed text starts with a byte order mark. */
  lemma PlainStart(j: Json, format: bool)
    ensures Text(j, format, 0) != [] && Text(j, format, 0)[0] != 0xEF as char
  {
    FirstChar(j, format, 0);
    if j.Number? {
      var digits := Decimal(if j.n < 0 then -j.n else j.n);
      assert IsDigit(digits[0]);
    }
  }
}
