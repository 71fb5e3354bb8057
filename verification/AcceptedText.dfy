/**
  Whatever the parser reads is a text of the grammar, and is read as what that text
  stands for: there is nothing else it takes.
 */
module AcceptedText {
  import opened Sequences
  import opened Decimals
  import opened JsonValues
  import opened JsonText
  import opened ParseSpec
  import opened Grammar
  import opened StringGrammar
  import opened ValueGrammar

  /** The text at o, up to e, is one that stands for j. */
  predicate StandsFor(c: string, o: nat, s: Syntax, j: Json, e: nat) {
    Fits(s) && Reads(c, o, Written(s)) && ValueOf(s) == j && e == o + |Written(s)|
  }

  lemma NumberStarts(c: string, o: nat)
    requires o < |c| && IsNumberChar(c[o])
    ensures 1 <= NumberRun(c, o, 63) <= 63 && o + NumberRun(c, o, 63) <= |c|
  {
  }

  /** What strtod takes of a run: a sign and the digits behind it. */
  lemma RunRead(run: string, minus: bool) returns (digits: string)
    requires run != "" && |run| <= 63 && minus == (run[0] == '-') && run[0] != '+' && Strtod(run).Some?
    ensures FitsInt(minus, digits) && SignedText(minus, digits) <= run
    ensures var n: int := ReadOn(digits, 0); Strtod(run) == Some((if minus then -n else n, |SignedText(minus, digits)|))
  {
    hide DigitRun;
    hide ReadOn;
    hide IsDigit;
    var sign := if minus then 1 else 0;
    var rest := run[sign..];
    digits := rest[..DigitRun(rest)];
    Front(run, sign, |digits|);
    assert run[..sign] == if minus then "-" else "";
  }

  lemma Front(run: string, i: nat, n: nat)
    requires i + n <= |run|
    ensures run[..i] + run[i..][..n] <= run
  {
    assert run[..i] + run[i..][..n] == run[..i + n];
  }

  lemma IntRead(c: string, o: nat) returns (s: Syntax)
    requires o < |c| && (c[o] == '-' || IsDigit(c[o])) && ParseNumber(c, o).Some?
    ensures var n := ParseNumber(c, o).value; StandsFor(c, o, s, n.0, n.1)
  {
    hide NumberRun;
    hide Strtod;
    hide ReadOn;
    NumberStarts(c, o);
    var run := c[o..o + NumberRun(c, o, 63)];
    assert run[0] == c[o];
    var minus := run[0] == '-';
    var digits := RunRead(run, minus);
    s := Int(minus, digits);
    var n := |SignedText(minus, digits)|;
    assert Written(s) == SignedText(minus, digits);
    assert c[o..o + n] == run[..n];
  }

  lemma LeafRead(c: string, o: nat, d: nat) returns (s: Syntax)
    requires o <= |c| && ParseValue(c, o, d).Some? && (o < |c| ==> c[o] != '[' && c[o] != '{')
    ensures var v := ParseValue(c, o, d).value; StandsFor(c, o, s, v.0, v.1)
  {
    hide ParseString;
    hide ParseNumber;
    hide ParseArray;
    hide ParseObject;
    hide LiteralText;
    hide LiteralMeaning;
    hide FitsLiteral;
    if Reads(c, o, "null") {
      s := Word(Null);
    } else if Reads(c, o, "false") {
      s := Word(False);
    } else if Reads(c, o, "true") {
      s := Word(True);
    } else if c[o] == QUOTE {
      var l := ReadIsLiteral(c, o);
      s := Str(l);
    } else {
      s := IntRead(c, o);
    }
  }

  /** What the parser reads somewhere is a text of the grammar with its value. */
  lemma {:induction false} ValueRead(c: string, o: nat, d: nat) returns (s: Syntax)
    requires o <= |c| && ParseValue(c, o, d).Some?
    ensures var v := ParseValue(c, o, d).value; StandsFor(c, o, s, v.0, v.1)
    decreases |c| - o, 2
  {
    hide StandsFor;
    if o < |c| && c[o] == '[' {
      hide ParseArray;
      NoLiteral(c, o);
      s := ArrayRead(c, o, d);
    } else if o < |c| && c[o] == '{' {
      hide ParseObject;
      NoLiteral(c, o);
      s := ObjectRead(c, o, d);
    } else {
      s := LeafRead(c, o, d);
    }
  }

  // ----- arrays -----

  predicate ElementsStand(c: string, o: nat, items: seq<Element>, js: seq<Json>, e: nat) {
    items != [] && (forall i :: 0 <= i < |items| ==> FitsElement(items[i])) && Reads(c, o, ElementsText(items)) &&
    ElementsValue(items) == js && e == o + |ElementsText(items)|
  }

  /** A value, the white space around it, and what is read behind that. */
  lemma Joins(c: string, o: nat, before: string, text: string, after: string, tail: string)
    requires Reads(c, o, before) && Reads(c, o + |before|, text) && Reads(c, o + |before| + |text|, after)
    requires Reads(c, o + |before| + |text| + |after|, tail)
    ensures Reads(c, o, before + (text + (after + tail)))
  {
    hide Reads;
    ReadsBoth(c, o + |before| + |text|, after, tail);
    ReadsBoth(c, o + |before|, text, after + tail);
    ReadsBoth(c, o, before, text + (after + tail));
  }

  lemma LastElement(c: string, o: nat, e: Element, end: nat)
    requires FitsElement(e) && Reads(c, o, e.before + (Written(e.v) + (e.after + "]")))
    requires end == o + |e.before + (Written(e.v) + (e.after + "]"))|
    ensures ElementsStand(c, o, [e], [ValueOf(e.v)], end)
  {
    hide Written;
    hide ValueOf;
    hide Reads;
    ElementsStart([e]);
    NoElements();
    assert [e][1..] == [] && [ValueOf(e.v)] + [] == [ValueOf(e.v)];
  }

  lemma MoreElements(c: string, o: nat, e: Element, items: seq<Element>, js: seq<Json>, end: nat)
    requires FitsElement(e) && items != [] && (forall i :: 0 <= i < |items| ==> FitsElement(items[i])) && ElementsValue(items) == js
    requires var text := e.before + (Written(e.v) + (e.after + ("," + ElementsText(items)))); Reads(c, o, text) && end == o + |text|
    ensures ElementsStand(c, o, [e] + items, [ValueOf(e.v)] + js, end)
  {
    hide Written;
    hide ValueOf;
    hide Reads;
    hide FitsElement;
    ElementsStart([e] + items);
    assert ([e] + items)[1..] == items;
  }

  lemma {:induction false} ItemsRead(c: string, o: nat, d: nat) returns (items: seq<Element>)
    requires o < |c| && ParseItems(c, o, d).Some?
    ensures var v := ParseItems(c, o, d).value; ElementsStand(c, o + 1, items, v.0, v.1)
    decreases |c| - o, 0
  {
    hide ParseValue;
    hide SkipWhitespace;
    hide IsBlank;
    hide Fits;
    hide Written;
    hide ValueOf;
    hide Reads;
    hide ElementsText;
    hide ElementsValue;
    var p := SkipWhitespace(c, o + 1);
    var v := ParseValue(c, p, d).value;
    var next := SkipWhitespace(c, v.1);
    SkippedIsBlank(c, o + 1);
    SkippedIsBlank(c, v.1);
    var s := ValueRead(c, p, d);
    var e := Element(c[o + 1..p], s, c[v.1..next]);
    if Sees(c, next, ',') {
      var more := ItemsRead(c, next, d);
      CharReads(c, next);
      ReadsBoth(c, next, ",", ElementsText(more));
      Joins(c, o + 1, e.before, Written(s), e.after, "," + ElementsText(more));
      items := [e] + more;
      MoreElements(c, o + 1, e, more, ParseItems(c, next, d).value.0, ParseItems(c, next, d).value.1);
    } else {
      CharReads(c, next);
      Joins(c, o + 1, e.before, Written(s), e.after, "]");
      items := [e];
      LastElement(c, o + 1, e, next + 1);
    }
  }

  lemma CharReads(c: string, o: nat)
    requires o < |c|
    ensures Reads(c, o, [c[o]])
  {
  }

  lemma {:induction false} ArrayRead(c: string, o: nat, d: nat) returns (s: Syntax)
    requires o < |c| && c[o] == '[' && ParseArray(c, o, d).Some?
    ensures var v := ParseArray(c, o, d).value; StandsFor(c, o, s, v.0, v.1)
    decreases |c| - o, 1
  {
    hide ParseItems;
    hide SkipWhitespace;
    hide IsBlank;
    hide Reads;
    var first := SkipWhitespace(c, o + 1);
    var blank := c[o + 1..first];
    SkippedIsBlank(c, o + 1);
    CharReads(c, o);
    if Sees(c, first, ']') {
      s := Arr(blank, []);
      CharReads(c, first);
      ReadsBoth(c, o + 1, blank, "]");
      ReadsBoth(c, o, "[", blank + "]");
      NoElements();
    } else {
      var items := ItemsRead(c, first - 1, d + 1);
      s := ArrayFrom(c, o, blank, items, ParseItems(c, first - 1, d + 1).value.0, ParseItems(c, first - 1, d + 1).value.1);
    }
  }

  lemma ArrayFrom(c: string, o: nat, blank: string, items: seq<Element>, js: seq<Json>, end: nat) returns (s: Syntax)
    requires Reads(c, o, "[") && Reads(c, o + 1, blank) && IsBlank(blank) && ElementsStand(c, o + 1 + |blank|, items, js, end)
    ensures StandsFor(c, o, s, Array(js), end)
  {
    hide Reads;
    hide ElementsValue;
    var e := items[0];
    var all := [Element(blank + e.before, e.v, e.after)] + items[1..];
    s := Arr("", all);
    ElementsStart(items);
    ElementsStart(all);
    assert all[1..] == items[1..];
    hide ElementsText;
    var rest := Written(e.v) + ElementsTail(items);
    Append(blank, e.before, rest);
    ReadsBoth(c, o + 1, blank, e.before + rest);
    ReadsBoth(c, o, "[", blank + (e.before + rest));
    assert FitsElement(e) && IsBlank(blank + e.before);
    assert FitsElement(all[0]) && forall i :: 0 < i < |all| ==> all[i] == items[i];
    assert ElementsTail(all) == ElementsTail(items);
    assert IsBlank("") && Fits(s);
    assert Written(s) == "[" + (blank + (e.before + rest));
  }

  // ----- objects -----

  predicate EntriesStand(c: string, o: nat, entries: seq<Entry>, ms: seq<Member>, e: nat) {
    entries != [] && (forall i :: 0 <= i < |entries| ==> FitsEntry(entries[i])) && Reads(c, o, EntriesText(entries)) &&
    EntriesValue(entries) == ms && e == o + |EntriesText(entries)|
  }

  lemma LastEntry(c: string, o: nat, e: Entry, end: nat)
    requires FitsEntry(e) && Reads(c, o, EntryText(e, "}")) && end == o + |EntryText(e, "}")|
    ensures EntriesStand(c, o, [e], [EntryValue(e)], end)
  {
    hide EntryText;
    hide EntryValue;
    hide Reads;
    assert [e][1..] == [] && [EntryValue(e)] + [] == [EntryValue(e)];
    assert EntriesText([e]) == EntryText(e, "}");
    NoEntries();
  }

  lemma MoreEntries(c: string, o: nat, e: Entry, entries: seq<Entry>, ms: seq<Member>, end: nat)
    requires FitsEntry(e) && entries != [] && (forall i :: 0 <= i < |entries| ==> FitsEntry(entries[i])) && EntriesValue(entries) == ms
    requires var text := EntryText(e, "," + EntriesText(entries)); Reads(c, o, text) && end == o + |text|
    ensures EntriesStand(c, o, [e] + entries, [EntryValue(e)] + ms, end)
  {
    hide EntryText;
    hide EntryValue;
    hide Reads;
    hide FitsEntry;
    assert ([e] + entries)[1..] == entries;
    assert EntriesText([e] + entries) == EntryText(e, "," + EntriesText(entries));
  }

  /** One member: the name, the colon and the value, and where the next token stands. */
  lemma {:induction false} EntryRead(c: string, o: nat, d: nat) returns (e: Entry)
    requires o < |c| && ParseMember(c, o, d).Some?
    ensures FitsEntry(e) && EntryValue(e) == ParseMember(c, o, d).value.0
    ensures forall tail :: Reads(c, SkipWhitespace(c, ParseMember(c, o, d).value.1), tail) ==>
      Reads(c, o + 1, EntryText(e, tail)) && SkipWhitespace(c, ParseMember(c, o, d).value.1) + |tail| == o + 1 + |EntryText(e, tail)|
    decreases |c| - o, 0, 0
  {
    hide ParseValue;
    hide ParseString;
    hide SkipWhitespace;
    hide IsBlank;
    hide Fits;
    hide FitsLiteral;
    hide Written;
    hide ValueOf;
    hide LiteralText;
    hide LiteralMeaning;
    hide Reads;
    var k := SkipWhitespace(c, o + 1);
    var key := ParseString(c, k).value;
    var colon := SkipWhitespace(c, key.1);
    var p := SkipWhitespace(c, colon + 1);
    var v := ParseValue(c, p, d).value;
    var next := SkipWhitespace(c, v.1);
    SkippedIsBlank(c, o + 1);
    SkippedIsBlank(c, key.1);
    SkippedIsBlank(c, colon + 1);
    SkippedIsBlank(c, v.1);
    CharReads(c, colon);
    var l := ReadIsLiteral(c, k);
    var s := ValueRead(c, p, d);
    e := Entry(c[o + 1..k], l, c[key.1..colon], c[colon + 1..p], s, c[v.1..next]);
    forall tail | Reads(c, next, tail)
      ensures Reads(c, o + 1, EntryText(e, tail)) && next + |tail| == o + 1 + |EntryText(e, tail)|
    {
      Joins(c, colon + 1, e.lead, Written(s), e.after, tail);
      var rest := e.lead + (Written(s) + (e.after + tail));
      Joins(c, k, LiteralText(l), e.gap, ":", rest);
      ReadsBoth(c, o + 1, e.before, LiteralText(l) + (e.gap + (":" + rest)));
    }
  }

  lemma {:induction false} MembersRead(c: string, o: nat, d: nat) returns (entries: seq<Entry>)
    requires o < |c| && ParseMembers(c, o, d).Some?
    ensures var v := ParseMembers(c, o, d).value; EntriesStand(c, o + 1, entries, v.0, v.1)
    decreases |c| - o, 0, 1
  {
    hide ParseMember;
    hide SkipWhitespace;
    hide FitsEntry;
    hide EntryText;
    hide EntryValue;
    hide Reads;
    hide EntriesText;
    hide EntriesValue;
    var m := ParseMember(c, o, d).value;
    var next := SkipWhitespace(c, m.1);
    var e := EntryRead(c, o, d);
    CharReads(c, next);
    if Sees(c, next, ',') {
      var more := MembersRead(c, next, d);
      ReadsBoth(c, next, ",", EntriesText(more));
      entries := [e] + more;
      MoreEntries(c, o + 1, e, more, ParseMembers(c, next, d).value.0, ParseMembers(c, next, d).value.1);
    } else {
      entries := [e];
      LastEntry(c, o + 1, e, next + 1);
    }
  }

  lemma {:induction false} ObjectRead(c: string, o: nat, d: nat) returns (s: Syntax)
    requires o < |c| && c[o] == '{' && ParseObject(c, o, d).Some?
    ensures var v := ParseObject(c, o, d).value; StandsFor(c, o, s, v.0, v.1)
    decreases |c| - o, 1
  {
    hide ParseMembers;
    hide SkipWhitespace;
    hide IsBlank;
    hide Reads;
    var first := SkipWhitespace(c, o + 1);
    var blank := c[o + 1..first];
    SkippedIsBlank(c, o + 1);
    CharReads(c, o);
    if Sees(c, first, '}') {
      s := Obj(blank, []);
      CharReads(c, first);
      ReadsBoth(c, o + 1, blank, "}");
      ReadsBoth(c, o, "{", blank + "}");
      NoEntries();
    } else {
      var entries := MembersRead(c, first - 1, d + 1);
      s := ObjectFrom(c, o, blank, entries, ParseMembers(c, first - 1, d + 1).value.0, ParseMembers(c, first - 1, d + 1).value.1);
    }
  }

  lemma ObjectFrom(c: string, o: nat, blank: string, entries: seq<Entry>, ms: seq<Member>, end: nat) returns (s: Syntax)
    requires Reads(c, o, "{") && Reads(c, o + 1, blank) && IsBlank(blank) && EntriesStand(c, o + 1 + |blank|, entries, ms, end)
    ensures StandsFor(c, o, s, Object(ms), end)
  {
    hide Reads;
    hide EntriesValue;
    hide LiteralText;
    var e := entries[0];
    var e' := Entry(blank + e.before, e.key, e.gap, e.lead, e.v, e.after);
    var all := [e'] + entries[1..];
    s := Obj("", all);
    EntriesStart(entries);
    EntriesStart(all);
    assert all[1..] == entries[1..];
    hide EntriesText;
    var rest := LiteralText(e.key) + EntryTail(e, EntriesTail(entries));
    assert EntryTail(e', EntriesTail(all)) == EntryTail(e, EntriesTail(entries));
    Append(blank, e.before, rest);
    ReadsBoth(c, o + 1, blank, e.before + rest);
    ReadsBoth(c, o, "{", blank + (e.before + rest));
    assert FitsEntry(e) && IsBlank(blank + e.before);
    assert FitsEntry(all[0]) && forall i :: 0 < i < |all| ==> all[i] == entries[i];
    assert EntriesTail(all) == EntriesTail(entries);
    assert IsBlank("") && Fits(s);
    assert Written(s) == "{" + (blank + (e.before + rest));
  }
}
