/**
  What cJSON_Minify is for: comments and white space between the tokens of a document
  go, and the document stands for what it stood for.
 */
module Comments {
  import opened Sequences
  import opened CStrings
  import opened JsonValues
  import opened JsonText
  import opened ParseSpec
  import opened UnicodeEscapes
  import opened Grammar
  import opened StringGrammar
  import opened ValueGrammar
  import opened ParseRoundTrip
  import opened Documents
  import opened Minify
  import opened MinifyText

  // ----- one comment -----

  lemma {:induction false} LineEnds(c: string, rest: string)
    requires '\n' !in c
    ensures LineLength(c + ("\n" + rest)) == |c| + 1 && LineLength(c) == |c|
  {
    var s := c + ("\n" + rest);
    if c == "" {
      assert s[0] == '\n';
    } else {
      assert s[0] == c[0] && s[1..] == c[1..] + ("\n" + rest);
      LineEnds(c[1..], rest);
    }
  }

  /** A line comment goes up to and with its line end, and takes nothing behind that along. */
  lemma LineCommentGoes(c: string, rest: string)
    requires '\n' !in c
    ensures Minified("//" + (c + ("\n" + rest))) == Minified(rest) && Minified("//" + c) == ""
  {
    hide Minified;
    hide LineLength;
    var s, t := "//" + (c + ("\n" + rest)), "//" + c;
    assert s[2..] == c + ("\n" + rest) && t[2..] == c;
    LineEnds(c, rest);
    MinifiedStep(s);
    MinifiedStep(t);
    assert s[2..][|c| + 1..] == rest && t[2..][|c|..] == "";
    MinifiedNothing();
  }

  /** The two bytes that end a block comment do not occur. */
  predicate NoClose(c: string) {
    forall i :: 0 <= i < |c| - 1 ==> !(c[i] == '*' && c[i + 1] == '/')
  }

  lemma {:induction false} BlockEnds(c: string, rest: string)
    requires NoClose(c)
    ensures BlockLength(c + ("*/" + rest)) == |c| + 2 && BlockLength(c) == |c|
  {
    var s := c + ("*/" + rest);
    if c == "" {
      assert s[0] == '*' && s[1] == '/';
    } else {
      assert s[0] == c[0] && s[1..] == c[1..] + ("*/" + rest);
      assert s[1] == if |c| > 1 then c[1] else '*';
      BlockEnds(c[1..], rest);
    }
  }

  /** So does a block comment, up to the first end of one. */
  lemma BlockCommentGoes(c: string, rest: string)
    requires NoClose(c)
    ensures Minified("/*" + (c + ("*/" + rest))) == Minified(rest) && Minified("/*" + c) == ""
  {
    hide Minified;
    hide BlockLength;
    var s, t := "/*" + (c + ("*/" + rest)), "/*" + c;
    assert s[2..] == c + ("*/" + rest) && t[2..] == c;
    BlockEnds(c, rest);
    MinifiedStep(s);
    MinifiedStep(t);
    assert s[2..][|c| + 2..] == rest && t[2..][|c|..] == "";
    MinifiedNothing();
  }

  // ----- what may stand between two tokens -----

  datatype Filler =
    | Space(c: char)
    | Line(text: string)
    | Block(text: string)

  predicate FitsFiller(f: Filler) {
    match f
    case Space(c) => c in [' ', '\t', '\r', '\n']
    case Line(c) => '\n' !in c
    case Block(c) => NoClose(c)
  }

  function FillersText(fs: seq<Filler>): string {
    if fs == [] then "" else FillerText(fs[0], FillersText(fs[1..]))
  }

  /** A filler and what follows it. */
  function FillerText(f: Filler, rest: string): string {
    match f
    case Space(c) => [c] + rest
    case Line(c) => "//" + (c + ("\n" + rest))
    case Block(c) => "/*" + (c + ("*/" + rest))
  }

  ghost predicate IsGap(g: string) {
    exists fs :: (forall i :: 0 <= i < |fs| ==> FitsFiller(fs[i])) && FillersText(fs) == g
  }

  lemma FillerSplits(f: Filler, a: string, b: string)
    ensures FillerText(f, a + b) == FillerText(f, a) + b
  {
    match f {
      case Space(c) => Append([c], a, b);
      case Line(c) =>
        Append("\n", a, b);
        Append(c, "\n" + a, b);
        Append("//", c + ("\n" + a), b);
      case Block(c) =>
        Append("*/", a, b);
        Append(c, "*/" + a, b);
        Append("/*", c + ("*/" + a), b);
    }
  }

  lemma FillerGoes(f: Filler, rest: string)
    requires FitsFiller(f)
    ensures Minified(FillerText(f, rest)) == Minified(rest)
  {
    hide Minified;
    match f {
      case Space(c) => MinifiedStep([c] + rest);
      case Line(c) => LineCommentGoes(c, rest);
      case Block(c) => BlockCommentGoes(c, rest);
    }
  }

  lemma {:induction false} FillersGo(fs: seq<Filler>, rest: string)
    requires forall i :: 0 <= i < |fs| ==> FitsFiller(fs[i])
    ensures Minified(FillersText(fs) + rest) == Minified(rest)
    decreases |fs|
  {
    hide Minified;
    hide FillerText;
    if fs == [] {
      assert "" + rest == rest;
    } else {
      FillerSplits(fs[0], FillersText(fs[1..]), rest);
      FillerGoes(fs[0], FillersText(fs[1..]) + rest);
      FillersGo(fs[1..], rest);
    }
  }

  /** Whatever comments and white space stand there, nothing is left of them. */
  lemma GapGoes(g: string, rest: string)
    requires IsGap(g)
    ensures Minified(g + rest) == Minified(rest)
  {
    hide Minified;
    var fs :| (forall i :: 0 <= i < |fs| ==> FitsFiller(fs[i])) && FillersText(fs) == g;
    FillersGo(fs, rest);
  }

  /** Any other byte between tokens stays, but for a slash, which starts a comment or goes alone. */
  lemma OtherKept(c: char, rest: string)
    requires c !in [' ', '\t', '\r', '\n'] && c != QUOTE
    ensures c != '/' ==> Minified([c] + rest) == [c] + Minified(rest)
    ensures c == '/' && (rest == "" || (rest[0] != '/' && rest[0] != '*')) ==> Minified([c] + rest) == Minified(rest)
  {
    hide Minified;
    var s := [c] + rest;
    assert s[1..] == rest && (|s| > 1 ==> s[1] == rest[0]);
    MinifiedStep(s);
  }

  // ----- strings -----

  /** A string that the pass leaves at its closing quote. */
  predicate Closes(l: Literal) {
    FitPieces(l.ps) && l.junk == "" && (l.ps != [] ==> l.ps[|l.ps| - 1] != Short(BACKSLASH))
  }

  lemma PieceStarts(p: Piece)
    requires FitsPiece(p)
    ensures PieceText(p) != "" && PieceText(p)[0] != QUOTE
  {
  }

  lemma PassesPiece(p: Piece, s: string)
    requires FitsPiece(p) && s != "" && (p == Short(BACKSLASH) ==> s[0] != QUOTE)
    ensures StringLength(PieceText(p) + s) == |PieceText(p)| + StringLength(s)
  {
    hide StringLength;
    match p {
      case Plain(c) => PassesLetters([c], s);
      case Short(letter) =>
        if letter == QUOTE || letter == BACKSLASH {
          PassesPair(letter, s);
        } else {
          assert PieceText(p) == [BACKSLASH] + [letter];
          PassesBackslash([letter], s);
        }
      case Escaped(codepoint, caps) => PassesEscaped(codepoint, caps, s);
    }
  }

  lemma PassesUnit(n: nat, caps: seq<bool>, s: string)
    requires n < 0x10000 && |caps| == 4
    ensures StringLength(Unit(n, caps) + s) == 6 + StringLength(s)
  {
    hide StringLength;
    hide HexText;
    UnitText(n, caps);
    var u := Unit(n, caps);
    assert u == [BACKSLASH] + u[1..];
    PassesBackslash(u[1..], s);
  }

  lemma PassesEscaped(codepoint: nat, caps: seq<bool>, s: string)
    requires IsScalar(codepoint) && |caps| == 8
    ensures StringLength(EscapeText(codepoint, caps) + s) == |EscapeText(codepoint, caps)| + StringLength(s)
  {
    hide StringLength;
    hide HexText;
    if codepoint < 0x10000 {
      PassesUnit(codepoint, caps[..4], s);
      UnitText(codepoint, caps[..4]);
    } else {
      var high, low := 0xD800 + (codepoint - 0x10000) / 1024, 0xDC00 + (codepoint - 0x10000) % 1024;
      Append(Unit(high, caps[..4]), Unit(low, caps[4..]), s);
      PassesUnit(high, caps[..4], Unit(low, caps[4..]) + s);
      PassesUnit(low, caps[4..], s);
      UnitText(high, caps[..4]);
      UnitText(low, caps[4..]);
    }
  }

  lemma {:induction false} PassesPieces(ps: seq<Piece>, rest: string)
    requires FitPieces(ps) && (ps != [] ==> ps[|ps| - 1] != Short(BACKSLASH))
    ensures StringLength(PiecesText(ps) + ([QUOTE] + rest)) == |PiecesText(ps)| + 1
    decreases |ps|
  {
    hide StringLength;
    hide PieceText;
    var close := [QUOTE] + rest;
    if ps == [] {
      assert "" + close == close;
      LeavesAtOnce(rest);
    } else {
      var more := PiecesText(ps[1..]) + close;
      Append(PieceText(ps[0]), PiecesText(ps[1..]), close);
      if |ps| > 1 {
        PieceStarts(ps[1]);
        assert more[0] == PieceText(ps[1])[0];
      } else {
        assert more == close;
      }
      PassesPiece(ps[0], more);
      PassesPieces(ps[1..], rest);
    }
  }

  lemma MinifiedLiteral(l: Literal, rest: string)
    requires Closes(l)
    ensures Minified(LiteralText(l) + rest) == LiteralText(l) + Minified(rest)
  {
    hide Minified;
    hide StringLength;
    hide PiecesText;
    var text := PiecesText(l.ps);
    var all, body := LiteralText(l) + rest, text + ([QUOTE] + rest);
    assert LiteralText(l) == [QUOTE] + (text + [QUOTE]) by { assert "" + [QUOTE] == [QUOTE]; }
    assert all[1..] == body && all[0] == QUOTE;
    PassesPieces(l.ps, rest);
    MinifiedString(all);
    assert all[..|text| + 2] == LiteralText(l) && all[|text| + 2..] == rest;
  }

  // ----- documents -----

  /** Comments and white space anywhere between the tokens. */
  ghost predicate Commented(s: Syntax)
    decreases s
  {
    match s
    case Word(v) => v.Null? || v.False? || v.True?
    case Int(minus, digits) => FitsInt(minus, digits)
    case Str(l) => Closes(l)
    case Arr(inner, items) => IsGap(inner) && forall i :: 0 <= i < |items| ==> CommentedElement(items[i])
    case Obj(inner, entries) => IsGap(inner) && forall i :: 0 <= i < |entries| ==> CommentedEntry(entries[i])
  }

  ghost predicate CommentedElement(e: Element)
    decreases e
  {
    IsGap(e.before) && Commented(e.v) && IsGap(e.after)
  }

  ghost predicate CommentedEntry(e: Entry)
    decreases e
  {
    IsGap(e.before) && Closes(e.key) && IsGap(e.gap) && IsGap(e.lead) && Commented(e.v) && IsGap(e.after)
  }

  /** The same tokens with nothing between them. */
  function Bare(s: Syntax): Syntax
    decreases s
  {
    match s
    case Arr(_, items) => Arr("", BareElements(items))
    case Obj(_, entries) => Obj("", BareEntries(entries))
    case _ => s
  }

  function BareElements(items: seq<Element>): (r: seq<Element>)
    ensures |r| == |items|
    decreases items
  {
    if items == [] then [] else [Element("", Bare(items[0].v), "")] + BareElements(items[1..])
  }

  function BareEntry(e: Entry): Entry
    decreases e
  {
    Entry("", e.key, "", "", Bare(e.v), "")
  }

  function BareEntries(entries: seq<Entry>): (r: seq<Entry>)
    ensures |r| == |entries|
    decreases entries
  {
    if entries == [] then [] else [BareEntry(entries[0])] + BareEntries(entries[1..])
  }

  lemma TokenKept(t: string, rest: string)
    requires t in ["[", "]", "{", "}", ":", ","]
    ensures Minified(t + rest) == t + Minified(rest)
  {
    Keeps(t, rest);
  }

  lemma IntKept(minus: bool, digits: string, rest: string)
    requires FitsInt(minus, digits)
    ensures Minified(Written(Int(minus, digits)) + rest) == Written(Int(minus, digits)) + Minified(rest)
  {
    hide Minified;
    var t := Written(Int(minus, digits));
    assert forall i :: 0 <= i < |t| ==> t[i] == '-' || '0' <= t[i] <= '9';
    Keeps(t, rest);
  }

  /** A document comes out with its tokens and nothing between them. */
  lemma {:induction false} MinifiesWritten(s: Syntax, rest: string)
    requires Commented(s)
    ensures Minified(Written(s) + rest) == Written(Bare(s)) + Minified(rest)
    decreases s, 1
  {
    hide Minified;
    match s {
      case Word(_) => Keeps(Written(s), rest);
      case Int(minus, digits) => IntKept(minus, digits, rest);
      case Str(l) => MinifiedLiteral(l, rest);
      case Arr(inner, items) => MinifiesArray(inner, items, rest);
      case Obj(inner, entries) => MinifiesObject(inner, entries, rest);
    }
  }

  lemma {:induction false} MinifiesArray(inner: string, items: seq<Element>, rest: string)
    requires Commented(Arr(inner, items))
    ensures Minified(Written(Arr(inner, items)) + rest) == Written(Bare(Arr(inner, items))) + Minified(rest)
    decreases items, 3
  {
    hide Minified;
    hide ElementsText;
    hide BareElements;
    hide IsGap;
    var body := if items == [] then inner + "]" else ElementsText(items);
    Append("[", body, rest);
    TokenKept("[", body + rest);
    if items == [] {
      Append(inner, "]", rest);
      GapGoes(inner, "]" + rest);
      TokenKept("]", rest);
      assert "" + "]" == "]" && "[" + ("]" + Minified(rest)) == ("[" + "]") + Minified(rest);
    } else {
      MinifiesElements(items, rest);
      Append("[", ElementsText(BareElements(items)), Minified(rest));
    }
  }

  lemma BareStart(items: seq<Element>)
    requires items != []
    ensures var bs := BareElements(items); bs[0] == Element("", Bare(items[0].v), "") && bs[1..] == BareElements(items[1..])
    ensures ElementsText(BareElements(items)) ==
      Written(Bare(items[0].v)) + if |items| > 1 then "," + ElementsText(BareElements(items[1..])) else "]"
  {
    hide Written;
    var bs := BareElements(items);
    assert bs[1..] == BareElements(items[1..]);
    hide BareElements;
    hide ElementsText;
    ElementsStart(bs);
    var tail := if |bs| > 1 then "," + ElementsText(bs[1..]) else "]";
    assert "" + tail == tail && "" + (Written(bs[0].v) + tail) == Written(bs[0].v) + tail;
  }

  lemma {:induction false} MinifiesElements(items: seq<Element>, rest: string)
    requires items != [] && forall i :: 0 <= i < |items| ==> CommentedElement(items[i])
    ensures Minified(ElementsText(items) + rest) == ElementsText(BareElements(items)) + Minified(rest)
    decreases items, 2
  {
    hide Minified;
    hide Written;
    hide ElementsText;
    hide BareElements;
    hide IsGap;
    hide Commented;
    var e, tail := items[0], if |items| > 1 then "," + ElementsText(items[1..]) else "]";
    var bare := Written(Bare(e.v));
    assert CommentedElement(e);
    ElementsStart(items);
    BareStart(items);
    MinifiesBehind(e.before, e.v, e.after, tail, rest);
    if |items| > 1 {
      var more := ElementsText(items[1..]);
      Append(",", more, rest);
      TokenKept(",", more + rest);
      MinifiesElements(items[1..], rest);
      Append(",", ElementsText(BareElements(items[1..])), Minified(rest));
      Append(bare, "," + ElementsText(BareElements(items[1..])), Minified(rest));
    } else {
      TokenKept("]", rest);
      Append(bare, "]", Minified(rest));
    }
  }

  lemma {:induction false} MinifiesBehind(before: string, s: Syntax, after: string, tail: string, rest: string)
    requires IsGap(before) && Commented(s) && IsGap(after)
    ensures Minified((before + (Written(s) + (after + tail))) + rest) == Written(Bare(s)) + Minified(tail + rest)
    decreases s, 2
  {
    hide Minified;
    hide Written;
    hide IsGap;
    hide Commented;
    Append(before, Written(s) + (after + tail), rest);
    Append(Written(s), after + tail, rest);
    Append(after, tail, rest);
    GapGoes(before, Written(s) + (after + (tail + rest)));
    MinifiesWritten(s, after + (tail + rest));
    GapGoes(after, tail + rest);
  }

  lemma {:induction false} MinifiesObject(inner: string, entries: seq<Entry>, rest: string)
    requires Commented(Obj(inner, entries))
    ensures Minified(Written(Obj(inner, entries)) + rest) == Written(Bare(Obj(inner, entries))) + Minified(rest)
    decreases entries, 3
  {
    hide Minified;
    hide EntriesText;
    hide BareEntries;
    hide IsGap;
    var body := if entries == [] then inner + "}" else EntriesText(entries);
    Append("{", body, rest);
    TokenKept("{", body + rest);
    if entries == [] {
      Append(inner, "}", rest);
      GapGoes(inner, "}" + rest);
      TokenKept("}", rest);
      assert "" + "}" == "}" && "{" + ("}" + Minified(rest)) == ("{" + "}") + Minified(rest);
    } else {
      MinifiesEntries(entries, rest);
      Append("{", EntriesText(BareEntries(entries)), Minified(rest));
    }
  }

  lemma BareFirst(entries: seq<Entry>)
    requires entries != []
    ensures EntriesText(BareEntries(entries)) ==
      LiteralText(entries[0].key) +
      (":" + (Written(Bare(entries[0].v)) + if |entries| > 1 then "," + EntriesText(BareEntries(entries[1..])) else "}"))
  {
    hide Written;
    hide LiteralText;
    var bs := BareEntries(entries);
    assert bs[1..] == BareEntries(entries[1..]) && bs[0] == BareEntry(entries[0]);
    hide BareEntries;
    hide EntriesText;
    EntriesStart(bs);
    var tail := EntriesTail(bs);
    var v := Written(bs[0].v) + tail;
    assert "" + tail == tail && "" + v == v && "" + (":" + v) == ":" + v;
    assert "" + (LiteralText(bs[0].key) + (":" + v)) == LiteralText(bs[0].key) + (":" + v);
  }

  lemma {:induction false} MinifiesEntries(entries: seq<Entry>, rest: string)
    requires entries != [] && forall i :: 0 <= i < |entries| ==> CommentedEntry(entries[i])
    ensures Minified(EntriesText(entries) + rest) == EntriesText(BareEntries(entries)) + Minified(rest)
    decreases entries, 2
  {
    hide Minified;
    hide Written;
    hide LiteralText;
    hide EntriesText;
    hide BareEntries;
    hide IsGap;
    hide Commented;
    hide Closes;
    var e, tail := entries[0], EntriesTail(entries);
    var key, bare := LiteralText(e.key), Written(Bare(e.v));
    assert CommentedEntry(e);
    EntriesStart(entries);
    BareFirst(entries);
    MinifiesEntry(e, tail, rest);
    if |entries| > 1 {
      var more, less := EntriesText(entries[1..]), EntriesText(BareEntries(entries[1..]));
      Append(",", more, rest);
      TokenKept(",", more + rest);
      MinifiesEntries(entries[1..], rest);
      Append(",", less, Minified(rest));
      Regrouped(key, bare, "," + less, Minified(rest));
    } else {
      TokenKept("}", rest);
      Regrouped(key, bare, "}", Minified(rest));
    }
  }

  lemma Regrouped(key: string, v: string, tail: string, rest: string)
    ensures (key + (":" + (v + tail))) + rest == key + (":" + (v + (tail + rest)))
  {
    Append(key, ":" + (v + tail), rest);
    Append(":", v + tail, rest);
    Append(v, tail, rest);
  }

  lemma {:induction false} MinifiesEntry(e: Entry, tail: string, rest: string)
    requires CommentedEntry(e)
    ensures Minified((e.before + (LiteralText(e.key) + EntryTail(e, tail))) + rest) ==
      LiteralText(e.key) + (":" + (Written(Bare(e.v)) + Minified(tail + rest)))
    decreases e, 3
  {
    hide Minified;
    hide Written;
    hide LiteralText;
    hide IsGap;
    hide Commented;
    var key, value := LiteralText(e.key), e.lead + (Written(e.v) + (e.after + tail));
    Append(e.before, key + EntryTail(e, tail), rest);
    Append(key, EntryTail(e, tail), rest);
    Append(e.gap, ":" + value, rest);
    Append(":", value, rest);
    GapGoes(e.before, key + (e.gap + (":" + (value + rest))));
    MinifiedLiteral(e.key, e.gap + (":" + (value + rest)));
    GapGoes(e.gap, ":" + (value + rest));
    TokenKept(":", value + rest);
    MinifiesBehind(e.lead, e.v, e.after, tail, rest);
  }

  /** A document comes out bare, and of what stands around it nothing is left. */
  lemma MinifiesDocument(before: string, s: Syntax, after: string)
    requires IsGap(before) && Commented(s) && IsGap(after)
    ensures Minified(before + (Written(s) + after)) == Written(Bare(s))
  {
    hide Minified;
    hide Written;
    hide IsGap;
    GapGoes(before, Written(s) + after);
    MinifiesWritten(s, after);
    assert after + "" == after;
    GapGoes(after, "");
    MinifiedNothing();
    assert Written(Bare(s)) + "" == Written(Bare(s));
  }

  lemma BlankNothing()
    ensures IsBlank("")
  {
  }

  /** Bare, it is a text of the grammar and stands for the same value. */
  lemma {:induction false} BareIsWritten(s: Syntax)
    requires Commented(s)
    ensures Fits(Bare(s)) && Clean(Bare(s)) && ValueOf(Bare(s)) == ValueOf(s)
    decreases s, 1
  {
    hide IsGap;
    BlankNothing();
    hide IsBlank;
    match s {
      case Arr(_, items) => BareElementsWritten(items);
      case Obj(_, entries) => BareEntriesWritten(entries);
      case _ =>
    }
  }

  lemma {:induction false} BareElementsWritten(items: seq<Element>)
    requires forall i :: 0 <= i < |items| ==> CommentedElement(items[i])
    ensures var bs := BareElements(items);
      (forall i :: 0 <= i < |bs| ==> FitsElement(bs[i]) && Clean(bs[i].v)) && ElementsValue(bs) == ElementsValue(items)
    decreases items, 2
  {
    hide IsGap;
    BlankNothing();
    hide IsBlank;
    hide Fits;
    hide Clean;
    hide Commented;
    hide ValueOf;
    if items != [] {
      assert CommentedElement(items[0]);
      BareIsWritten(items[0].v);
      BareElementsWritten(items[1..]);
      var bs := BareElements(items);
      assert bs[1..] == BareElements(items[1..]);
      assert forall i :: 0 < i < |bs| ==> bs[i] == bs[1..][i - 1];
    }
  }

  lemma {:induction false} BareEntriesWritten(entries: seq<Entry>)
    requires forall i :: 0 <= i < |entries| ==> CommentedEntry(entries[i])
    ensures var bs := BareEntries(entries);
      (forall i :: 0 <= i < |bs| ==> FitsEntry(bs[i]) && bs[i].key.junk == "" && Clean(bs[i].v)) && EntriesValue(bs) == EntriesValue(entries)
    decreases entries, 2
  {
    hide IsGap;
    BlankNothing();
    hide IsBlank;
    hide Fits;
    hide Clean;
    hide Commented;
    hide ValueOf;
    hide FitPieces;
    if entries != [] {
      assert CommentedEntry(entries[0]);
      BareIsWritten(entries[0].v);
      BareEntriesWritten(entries[1..]);
      var bs := BareEntries(entries);
      assert bs[1..] == BareEntries(entries[1..]);
      assert forall i :: 0 < i < |bs| ==> bs[i] == bs[1..][i - 1];
    }
  }

  /**
    So a document with comments, which the parser would not take, is read as what it
    stands for once it has been minified.
   */
  lemma MinifyThenParse(before: string, s: Syntax, after: string, requireTerminator: bool)
    requires IsGap(before) && Commented(s) && IsGap(after)
    ensures ParseBytes(Minified(before + (Written(s) + after)) + [NUL], requireTerminator) == Some(ValueOf(s)) <==>
      Depth(ValueOf(s)) <= NESTING_LIMIT
  {
    hide Minified;
    hide Written;
    hide IsGap;
    hide ParseBytes;
    MinifiesDocument(before, s, after);
    BareIsWritten(s);
    BlankNothing();
    ParsesDocument(false, "", Bare(s), "", requireTerminator);
    var text := Written(Bare(s)) + [NUL];
    assert "" + [NUL] == [NUL] && "" + ("" + text) == text;
  }

  /** Put between the tokens of an unformatted text, comments and white space leave that text. */
  lemma CommentsGo(j: Json, before: string, s: Syntax, after: string)
    requires IsCJson(j) && IsGap(before) && Commented(s) && IsGap(after) && Bare(s) == Printed(j, false, 0)
    ensures Minified(before + (Written(s) + after)) == Text(j, false, 0)
  {
    hide Minified;
    hide Written;
    hide IsGap;
    MinifiesDocument(before, s, after);
    PrintedIsWritten(j, false, 0);
  }
}
