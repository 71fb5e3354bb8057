/**
  Which texts the parser reads, and as what: all those of the grammar, with white
  space and escapes in any place and form it allows, and no others.
 */
module ValueGrammar {
  import opened Decimals
  import opened JsonValues
  import opened JsonText
  import opened ParseSpec
  import opened Grammar
  import opened StringGrammar

  // ----- white space -----

  lemma {:induction false} SkipsSpaces(c: string, o: nat, blank: string)
    requires Reads(c, o, blank) && IsBlank(blank)
    requires o + |blank| < |c| && c[o + |blank|] as int > 32
    ensures SkipSpaces(c, o) == o + |blank|
    decreases |blank|
  {
    if blank != [] {
      ReadsHead(c, o, blank);
      SkipsSpaces(c, o + 1, blank[1..]);
    }
  }

  /** White space, and what comes after it. */
  lemma SkipsTo(c: string, o: nat, blank: string, rest: string)
    requires Reads(c, o, blank + rest) && IsBlank(blank) && rest != "" && rest[0] as int > 32
    ensures var p := o + |blank|; o < |c| && SkipWhitespace(c, o) == p < |c| && Reads(c, p, rest) && c[p] == rest[0]
  {
    ReadsParts(c, o, blank, rest);
    ReadsHead(c, o + |blank|, rest);
    SkipsSpaces(c, o, blank);
  }

  lemma {:induction false} SkippedIsBlank(c: string, o: nat)
    requires o <= |c|
    ensures var r := SkipWhitespace(c, o); IsBlank(c[o..r]) && Reads(c, o, c[o..r])
  {
  }

  // ----- tokens -----

  lemma NoLiteral(c: string, o: nat)
    requires o < |c| && c[o] != 'n' && c[o] != 'f' && c[o] != 't'
    ensures !Reads(c, o, "null") && !Reads(c, o, "false") && !Reads(c, o, "true")
  {
    if Reads(c, o, "null") { ReadsHead(c, o, "null"); }
    if Reads(c, o, "false") { ReadsHead(c, o, "false"); }
    if Reads(c, o, "true") { ReadsHead(c, o, "true"); }
  }

  lemma LiteralsDiffer(c: string, o: nat)
    ensures Reads(c, o, "false") ==> !Reads(c, o, "null")
    ensures Reads(c, o, "true") ==> !Reads(c, o, "null") && !Reads(c, o, "false")
  {
    if Reads(c, o, "null") { ReadsHead(c, o, "null"); }
    if Reads(c, o, "false") { ReadsHead(c, o, "false"); }
    if Reads(c, o, "true") { ReadsHead(c, o, "true"); }
  }

  lemma {:induction false} RunsOver(c: string, o: nat, s: string, room: nat)
    requires Reads(c, o, s) && |s| <= room && forall i :: 0 <= i < |s| ==> IsNumberChar(s[i])
    requires o + |s| < |c| ==> !IsNumberChar(c[o + |s|])
    ensures NumberRun(c, o, room) == |s|
    decreases |s|
  {
    if s != [] {
      ReadsHead(c, o, s);
      RunsOver(c, o + 1, s[1..], room - 1);
    }
  }

  lemma {:induction false} DigitsRun(s: string, rest: string)
    requires (forall i :: 0 <= i < |s| ==> IsDigit(s[i])) && (rest != "" ==> !IsDigit(rest[0]))
    ensures DigitRun(s + rest) == |s|
  {
    if s == "" {
      assert s + rest == rest;
    } else {
      assert (s + rest)[1..] == s[1..] + rest;
      DigitsRun(s[1..], rest);
    }
  }

  /** What may follow a number: nothing it could go on with. */
  predicate Ends(c: string, o: nat) {
    o < |c| ==> !IsNumberChar(c[o])
  }

  function SignedText(minus: bool, digits: string): string {
    (if minus then "-" else "") + digits
  }

  lemma ReadsInt(c: string, o: nat, minus: bool, digits: string)
    requires FitsInt(minus, digits) && Reads(c, o, SignedText(minus, digits)) && Ends(c, o + |SignedText(minus, digits)|)
    ensures o < |c| && (c[o] == '-' || IsDigit(c[o]))
    ensures ParseNumber(c, o) == Some((ValueOf(Int(minus, digits)), o + |SignedText(minus, digits)|))
  {
    hide Strtod;
    hide NumberRun;
    hide ReadOn;
    hide IsNumberChar;
    var s := SignedText(minus, digits);
    IntChars(minus, digits);
    ReadsHead(c, o, s);
    RunsOver(c, o, s, 63);
    StrtodDigits(minus, digits);
  }

  lemma IntChars(minus: bool, digits: string)
    requires FitsInt(minus, digits)
    ensures var s := SignedText(minus, digits);
      0 < |s| <= 63 && (s[0] == '-' || IsDigit(s[0])) && forall i :: 0 <= i < |s| ==> IsNumberChar(s[i])
  {
  }

  lemma SignAndDigits(minus: bool, digits: string)
    requires FitsInt(minus, digits)
    ensures var s := SignedText(minus, digits);
      s != "" && (s[0] == '-' <==> minus) && s[0] != '+' && s[if minus then 1 else 0..] == digits
  {
    assert IsDigit(digits[0]);
  }

  lemma StrtodDigits(minus: bool, digits: string)
    requires FitsInt(minus, digits)
    ensures var n: int := ReadOn(digits, 0);
      Strtod(SignedText(minus, digits)) == Some((if minus then -n else n, |SignedText(minus, digits)|))
  {
    hide ReadOn;
    hide DigitRun;
    hide IsDigit;
    var s := SignedText(minus, digits);
    SignAndDigits(minus, digits);
    DigitsRun(digits, "");
    assert digits + "" == digits && digits[..|digits|] == digits;
  }

  lemma FirstOf(s: Syntax)
    requires Fits(s)
    ensures var t := Written(s); t != "" && t[0] as int > 32 && t[0] != ']' && t[0] != '}'
  {
    if s.Int? { assert IsDigit(s.digits[0]); }
  }

  // ----- every text of the grammar is read -----

  /** A text of the grammar, anywhere, is read as its value, up to where it ends. */
  lemma {:induction false} ReadsWritten(c: string, o: nat, s: Syntax, d: nat)
    requires Fits(s) && Clean(s) && d + Depth(ValueOf(s)) <= NESTING_LIMIT
    requires Reads(c, o, Written(s)) && (s.Int? ==> Ends(c, o + |Written(s)|))
    ensures ParseValue(c, o, d) == Some((ValueOf(s), o + |Written(s)|))
    decreases s, 2
  {
    hide ParseString;
    hide ParseNumber;
    hide ParseArray;
    hide ParseObject;
    hide ElementsText;
    hide EntriesText;
    hide ElementsValue;
    hide EntriesValue;
    hide LiteralText;
    hide LiteralMeaning;
    hide IsBlank;
    hide Ends;
    LiteralsDiffer(c, o);
    FirstOf(s);
    ReadsHead(c, o, Written(s));
    match s {
      case Word(_) =>
      case Int(minus, digits) =>
        assert Written(s) == SignedText(minus, digits);
        ReadsInt(c, o, minus, digits);
        NoLiteral(c, o);
      case Str(l) =>
        ReadsLiteral(c, o, l);
        NoLiteral(c, o);
      case Arr(inner, items) =>
        ReadsArray(c, o, inner, items, d);
        NoLiteral(c, o);
      case Obj(inner, entries) =>
        ReadsObject(c, o, inner, entries, d);
        NoLiteral(c, o);
    }
  }

  lemma {:induction false} ReadsArray(c: string, o: nat, inner: string, items: seq<Element>, d: nat)
    requires Fits(Arr(inner, items)) && Clean(Arr(inner, items)) && d + Depth(ValueOf(Arr(inner, items))) <= NESTING_LIMIT
    requires Reads(c, o, Written(Arr(inner, items)))
    ensures o < |c| && c[o] == '['
    ensures ParseArray(c, o, d) == Some((ValueOf(Arr(inner, items)), o + |Written(Arr(inner, items))|))
    decreases items, 4
  {
    hide ParseArray;
    hide ParseItems;
    hide SkipWhitespace;
    hide ElementsText;
    hide ElementsValue;
    hide Reads;
    hide IsBlank;
    hide Fits;
    hide Clean;
    hide Written;
    hide ValueOf;
    hide Depth;
    hide FitsElement;
    var rest := if items == [] then inner + "]" else ElementsText(items);
    ArrayParts(inner, items);
    ReadsParts(c, o, "[", rest);
    ReadsHead(c, o, "[");
    if items == [] {
      SkipsTo(c, o + 1, inner, "]");
      ArrayOpens(c, o, d, o + 1 + |inner|);
      NoElements();
    } else {
      ReadsMany(c, o, items, d);
    }
  }

  lemma {:induction false} ReadsMany(c: string, o: nat, items: seq<Element>, d: nat)
    requires items != [] && (forall i :: 0 <= i < |items| ==> FitsElement(items[i]) && Clean(items[i].v))
    requires IsBlank(items[0].before) && d + 1 + ItemsDepth(ElementsValue(items)) <= NESTING_LIMIT
    requires o < |c| && Reads(c, o + 1, ElementsText(items))
    ensures ParseArray(c, o, d) == Some((Array(ElementsValue(items)), o + 1 + |ElementsText(items)|))
    decreases items, 3, 1
  {
    hide ParseArray;
    hide ParseItems;
    hide SkipWhitespace;
    hide ElementsText;
    hide ElementsValue;
    hide ElementsTail;
    hide Written;
    hide Reads;
    hide IsBlank;
    hide Clean;
    hide FitsElement;
    hide ItemsDepth;
    var e, more := items[0], ElementsTail(items);
    ElementsStart(items);
    ElementFirst(e, more);
    SkipsTo(c, o + 1, e.before, Written(e.v) + more);
    var first := o + 1 + |e.before|;
    ArrayOpens(c, o, d, first);
    StandsAt(c, first);
    SameItems(c, o, first - 1, d + 1);
    ReadsElements(c, o, items, d + 1);
  }

  lemma ArrayParts(inner: string, items: seq<Element>)
    requires Fits(Arr(inner, items)) && Clean(Arr(inner, items))
    ensures Written(Arr(inner, items)) == "[" + if items == [] then inner + "]" else ElementsText(items)
    ensures ValueOf(Arr(inner, items)) == Array(ElementsValue(items))
    ensures Depth(ValueOf(Arr(inner, items))) == 1 + ItemsDepth(ElementsValue(items))
    ensures IsBlank(inner) && forall i :: 0 <= i < |items| ==> FitsElement(items[i]) && Clean(items[i].v)
    ensures items != [] ==> IsBlank(items[0].before)
  {
  }

  lemma ElementFirst(e: Element, more: string)
    requires FitsElement(e)
    ensures var t := Written(e.v) + more; t != "" && t[0] as int > 32 && t[0] != ']'
  {
    FirstOf(e.v);
  }

  lemma ArrayOpens(c: string, o: nat, d: nat, first: nat)
    requires o < |c| && d < NESTING_LIMIT && SkipWhitespace(c, o + 1) == first && 0 < first < |c|
    ensures c[first] == ']' ==> ParseArray(c, o, d) == Some((Array([]), first + 1))
    ensures c[first] != ']' ==> var items := ParseItems(c, first - 1, d + 1);
      ParseArray(c, o, d) == if items.None? then None else Some((Array(items.value.0), items.value.1))
  {
    hide ParseItems;
    hide SkipWhitespace;
  }

  lemma StandsAt(c: string, o: nat)
    requires o < |c| && c[o] as int > 32
    ensures SkipWhitespace(c, o) == o
  {
  }

  /** Elements are read from the first byte behind the white space. */
  lemma SameItems(c: string, o: nat, o': nat, d: nat)
    requires o < |c| && o' < |c| && SkipWhitespace(c, o + 1) == SkipWhitespace(c, o' + 1)
    ensures ParseItems(c, o, d) == ParseItems(c, o', d)
  {
    hide ParseValue;
    hide SkipWhitespace;
  }

  lemma NoElements()
    ensures ElementsValue([]) == []
  {
  }

  /** What follows the first element. */
  function ElementsTail(items: seq<Element>): string
    requires items != []
  {
    items[0].after + (if |items| > 1 then "," + ElementsText(items[1..]) else "]")
  }

  lemma ElementsStart(items: seq<Element>)
    requires items != []
    ensures ElementsText(items) == items[0].before + (Written(items[0].v) + ElementsTail(items))
    ensures ElementsTail(items) != ""
    ensures ElementsValue(items) == [ValueOf(items[0].v)] + ElementsValue(items[1..])
  {
  }

  lemma {:induction false} ReadsElements(c: string, o: nat, items: seq<Element>, d: nat)
    requires items != [] && (forall i :: 0 <= i < |items| ==> FitsElement(items[i]) && Clean(items[i].v))
    requires d + ItemsDepth(ElementsValue(items)) <= NESTING_LIMIT
    requires o < |c| && Reads(c, o + 1, ElementsText(items))
    ensures ParseItems(c, o, d) == Some((ElementsValue(items), o + 1 + |ElementsText(items)|))
    decreases items, 3, 0
  {
    hide ParseValue;
    hide ParseItems;
    hide SkipWhitespace;
    hide ElementsText;
    hide ElementsValue;
    hide Reads;
    hide IsBlank;
    var e, tail := items[0], if |items| > 1 then "," + ElementsText(items[1..]) else "]";
    ElementsStart(items);
    ItemsDeep(items);
    var next := ReadsBehind(c, o + 1, e.before, e.v, e.after, tail, d);
    if |items| > 1 {
      ReadsParts(c, next, ",", ElementsText(items[1..]));
      ReadsElements(c, next, items[1..], d);
      ItemsGoOn(c, o, d, next);
    } else {
      ItemsEnd(c, o, d, next);
      NoElements();
      assert items[1..] == [] && [ValueOf(e.v)] + [] == [ValueOf(e.v)];
    }
  }

  lemma ItemsDeep(items: seq<Element>)
    requires items != []
    ensures Depth(ValueOf(items[0].v)) <= ItemsDepth(ElementsValue(items))
    ensures ItemsDepth(ElementsValue(items[1..])) <= ItemsDepth(ElementsValue(items))
  {
    assert ElementsValue(items)[0] == ValueOf(items[0].v) && ElementsValue(items)[1..] == ElementsValue(items[1..]);
  }

  /** A value between white space, before something that ends it. */
  lemma {:induction false} ReadsBehind(c: string, o: nat, before: string, s: Syntax, after: string, tail: string, d: nat) returns (next: nat)
    requires IsBlank(before) && Fits(s) && Clean(s) && d + Depth(ValueOf(s)) <= NESTING_LIMIT && IsBlank(after)
    requires tail != "" && tail[0] as int > 32 && !IsNumberChar(tail[0])
    requires Reads(c, o, before + (Written(s) + (after + tail)))
    ensures o < |c| && SkipWhitespace(c, o) == o + |before| < |c|
    ensures var v := ParseValue(c, o + |before|, d);
      v == Some((ValueOf(s), o + |before| + |Written(s)|)) && SkipWhitespace(c, v.value.1) == next < |c|
    ensures Reads(c, next, tail) && c[next] == tail[0] && next == o + |before| + |Written(s)| + |after|
    decreases s, 3
  {
    hide ParseValue;
    hide Written;
    hide SkipWhitespace;
    hide Fits;
    hide Clean;
    hide ValueOf;
    hide Reads;
    hide IsBlank;
    var p := o + |before|;
    FirstOf(s);
    SkipsTo(c, o, before, Written(s) + (after + tail));
    ReadsParts(c, p, Written(s), after + tail);
    EndsHere(c, p + |Written(s)|, after, tail);
    ReadsWritten(c, p, s, d);
    SkipsTo(c, p + |Written(s)|, after, tail);
    next := p + |Written(s)| + |after|;
  }

  lemma EndsHere(c: string, o: nat, after: string, tail: string)
    requires Reads(c, o, after + tail) && IsBlank(after) && tail != "" && !IsNumberChar(tail[0])
    ensures Ends(c, o)
  {
    ReadsHead(c, o, after + tail);
  }

  lemma ItemsGoOn(c: string, o: nat, d: nat, next: nat)
    requires o < |c| && ParseValue(c, SkipWhitespace(c, o + 1), d).Some?
    requires SkipWhitespace(c, ParseValue(c, SkipWhitespace(c, o + 1), d).value.1) == next && Sees(c, next, ',')
    requires ParseItems(c, next, d).Some?
    ensures var (v, more) := (ParseValue(c, SkipWhitespace(c, o + 1), d), ParseItems(c, next, d));
      ParseItems(c, o, d) == Some(([v.value.0] + more.value.0, more.value.1))
  {
    hide ParseValue;
    hide SkipWhitespace;
  }

  lemma ItemsEnd(c: string, o: nat, d: nat, next: nat)
    requires o < |c| && ParseValue(c, SkipWhitespace(c, o + 1), d).Some?
    requires SkipWhitespace(c, ParseValue(c, SkipWhitespace(c, o + 1), d).value.1) == next && Sees(c, next, ']')
    ensures ParseItems(c, o, d) == Some(([ParseValue(c, SkipWhitespace(c, o + 1), d).value.0], next + 1))
  {
    hide ParseValue;
    hide SkipWhitespace;
  }

  // ----- objects -----

  lemma {:induction false} ReadsObject(c: string, o: nat, inner: string, entries: seq<Entry>, d: nat)
    requires Fits(Obj(inner, entries)) && Clean(Obj(inner, entries)) && d + Depth(ValueOf(Obj(inner, entries))) <= NESTING_LIMIT
    requires Reads(c, o, Written(Obj(inner, entries)))
    ensures o < |c| && c[o] == '{'
    ensures ParseObject(c, o, d) == Some((ValueOf(Obj(inner, entries)), o + |Written(Obj(inner, entries))|))
    decreases entries, 5
  {
    hide ParseObject;
    hide ParseMembers;
    hide SkipWhitespace;
    hide EntriesText;
    hide EntriesValue;
    hide LiteralText;
    hide Reads;
    hide IsBlank;
    hide Fits;
    hide Clean;
    hide Written;
    hide ValueOf;
    hide Depth;
    hide FitsEntry;
    var rest := if entries == [] then inner + "}" else EntriesText(entries);
    ObjectParts(inner, entries);
    ReadsParts(c, o, "{", rest);
    ReadsHead(c, o, "{");
    if entries == [] {
      SkipsTo(c, o + 1, inner, "}");
      ObjectOpens(c, o, d, o + 1 + |inner|);
      NoEntries();
    } else {
      ReadsSome(c, o, entries, d);
    }
  }

  lemma {:induction false} ReadsSome(c: string, o: nat, entries: seq<Entry>, d: nat)
    requires entries != [] && (forall i :: 0 <= i < |entries| ==> FitsEntry(entries[i]) && entries[i].key.junk == "" && Clean(entries[i].v))
    requires IsBlank(entries[0].before) && d + 1 + MembersDepth(EntriesValue(entries)) <= NESTING_LIMIT
    requires o < |c| && Reads(c, o + 1, EntriesText(entries))
    ensures ParseObject(c, o, d) == Some((Object(EntriesValue(entries)), o + 1 + |EntriesText(entries)|))
    decreases entries, 4
  {
    hide ParseObject;
    hide ParseMembers;
    hide SkipWhitespace;
    hide EntriesText;
    hide EntriesValue;
    hide EntryTail;
    hide LiteralText;
    hide Reads;
    hide IsBlank;
    hide Clean;
    hide FitsEntry;
    hide MembersDepth;
    var e := entries[0];
    EntriesStart(entries);
    LiteralStart(e.key);
    SkipsTo(c, o + 1, e.before, LiteralText(e.key) + EntryTail(e, EntriesTail(entries)));
    var first := o + 1 + |e.before|;
    ObjectOpens(c, o, d, first);
    StandsAt(c, first);
    SameMembers(c, o, first - 1, d + 1);
    ReadsEntries(c, o, entries, d + 1);
  }

  lemma ObjectParts(inner: string, entries: seq<Entry>)
    requires Fits(Obj(inner, entries)) && Clean(Obj(inner, entries))
    ensures Written(Obj(inner, entries)) == "{" + if entries == [] then inner + "}" else EntriesText(entries)
    ensures ValueOf(Obj(inner, entries)) == Object(EntriesValue(entries))
    ensures Depth(ValueOf(Obj(inner, entries))) == 1 + MembersDepth(EntriesValue(entries))
    ensures IsBlank(inner) && forall i :: 0 <= i < |entries| ==> FitsEntry(entries[i]) && entries[i].key.junk == "" && Clean(entries[i].v)
    ensures entries != [] ==> IsBlank(entries[0].before)
  {
    hide EntriesText;
    hide EntriesValue;
    hide LiteralText;
    hide FitsLiteral;
    hide IsBlank;
    hide MembersDepth;
  }

  lemma ObjectOpens(c: string, o: nat, d: nat, first: nat)
    requires o < |c| && d < NESTING_LIMIT && SkipWhitespace(c, o + 1) == first && 0 < first < |c|
    ensures c[first] == '}' ==> ParseObject(c, o, d) == Some((Object([]), first + 1))
    ensures c[first] != '}' ==> var ms := ParseMembers(c, first - 1, d + 1);
      ParseObject(c, o, d) == if ms.None? then None else Some((Object(ms.value.0), ms.value.1))
  {
    hide ParseMembers;
    hide SkipWhitespace;
  }

  lemma NoEntries()
    ensures EntriesValue([]) == []
  {
  }

  lemma LiteralStart(l: Literal)
    ensures LiteralText(l) != "" && LiteralText(l)[0] == QUOTE
  {
  }

  function EntriesTail(entries: seq<Entry>): (r: string)
    requires entries != []
    ensures r != "" && r[0] == if |entries| > 1 then ',' else '}'
  {
    if |entries| > 1 then "," + EntriesText(entries[1..]) else "}"
  }

  /** What follows the name of an entry. */
  function EntryTail(e: Entry, tail: string): string {
    e.gap + (":" + (e.lead + (Written(e.v) + (e.after + tail))))
  }

  lemma EntriesStart(entries: seq<Entry>)
    requires entries != []
    ensures EntriesText(entries) == entries[0].before + (LiteralText(entries[0].key) + EntryTail(entries[0], EntriesTail(entries)))
    ensures EntriesValue(entries) == [EntryValue(entries[0])] + EntriesValue(entries[1..])
  {
  }

  lemma SameMembers(c: string, o: nat, o': nat, d: nat)
    requires o + 1 < |c| && o' + 1 < |c| && SkipWhitespace(c, o + 1) == SkipWhitespace(c, o' + 1)
    ensures ParseMembers(c, o, d) == ParseMembers(c, o', d)
  {
    hide ParseValue;
    hide ParseString;
    hide SkipWhitespace;
  }

  lemma MembersDeep(entries: seq<Entry>)
    requires entries != []
    ensures Depth(ValueOf(entries[0].v)) <= MembersDepth(EntriesValue(entries))
    ensures MembersDepth(EntriesValue(entries[1..])) <= MembersDepth(EntriesValue(entries))
  {
    assert EntriesValue(entries)[0] == EntryValue(entries[0]) && EntriesValue(entries)[1..] == EntriesValue(entries[1..]);
  }

  lemma {:induction false} ReadsEntries(c: string, o: nat, entries: seq<Entry>, d: nat)
    requires entries != [] && (forall i :: 0 <= i < |entries| ==> FitsEntry(entries[i]) && entries[i].key.junk == "" && Clean(entries[i].v))
    requires d + MembersDepth(EntriesValue(entries)) <= NESTING_LIMIT
    requires o < |c| && Reads(c, o + 1, EntriesText(entries))
    ensures ParseMembers(c, o, d) == Some((EntriesValue(entries), o + 1 + |EntriesText(entries)|))
    decreases entries, 3
  {
    hide ParseMember;
    hide ParseMembers;
    hide SkipWhitespace;
    hide EntriesText;
    hide EntriesValue;
    hide EntryValue;
    hide LiteralText;
    hide Reads;
    hide IsBlank;
    var e := entries[0];
    EntriesStart(entries);
    MembersDeep(entries);
    var next := ReadsEntry(c, o, e, EntriesTail(entries), d);
    if |entries| > 1 {
      ReadsParts(c, next, ",", EntriesText(entries[1..]));
      ReadsEntries(c, next, entries[1..], d);
      MembersGoOn(c, o, d, next);
    } else {
      MembersEnd(c, o, d, next);
      NoEntries();
      assert entries[1..] == [] && [EntryValue(e)] + [] == [EntryValue(e)];
    }
  }

  lemma {:induction false} ReadsEntry(c: string, o: nat, e: Entry, tail: string, d: nat) returns (next: nat)
    requires FitsEntry(e) && e.key.junk == "" && Clean(e.v) && d + Depth(ValueOf(e.v)) <= NESTING_LIMIT
    requires tail != "" && tail[0] as int > 32 && !IsNumberChar(tail[0])
    requires o < |c| && Reads(c, o + 1, e.before + (LiteralText(e.key) + EntryTail(e, tail)))
    ensures var m := ParseMember(c, o, d);
      m.Some? && m.value.0 == EntryValue(e) && SkipWhitespace(c, m.value.1) == next < |c|
    ensures Reads(c, next, tail) && c[next] == tail[0]
    ensures next + |tail| == o + 1 + |e.before + (LiteralText(e.key) + EntryTail(e, tail))|
    decreases e, 4
  {
    hide ParseValue;
    hide ParseKey;
    hide SkipWhitespace;
    hide LiteralText;
    hide LiteralMeaning;
    hide Written;
    hide Reads;
    hide IsBlank;
    hide FitsLiteral;
    var start := ReadsKey(c, o, e.before, e.key, e.gap, e.lead + (Written(e.v) + (e.after + tail)));
    next := ReadsBehind(c, start, e.lead, e.v, e.after, tail, d);
  }

  /** The name of an entry and its colon. */
  lemma ReadsKey(c: string, o: nat, before: string, key: Literal, gap: string, rest: string) returns (start: nat)
    requires IsBlank(before) && FitsLiteral(key) && key.junk == "" && IsBlank(gap)
    requires o < |c| && Reads(c, o + 1, before + (LiteralText(key) + (gap + (":" + rest))))
    ensures ParseKey(c, o) == Some((LiteralMeaning(key), start)) && Reads(c, start, rest)
    ensures start == o + 2 + |before| + |LiteralText(key)| + |gap|
  {
    hide ParseString;
    hide SkipWhitespace;
    hide LiteralText;
    hide LiteralMeaning;
    hide Reads;
    hide IsBlank;
    hide FitsLiteral;
    var p, after := o + 1 + |before|, gap + (":" + rest);
    LiteralStart(key);
    SkipsTo(c, o + 1, before, LiteralText(key) + after);
    ReadsParts(c, p, LiteralText(key), after);
    ReadsLiteral(c, p, key);
    var q := p + |LiteralText(key)|;
    SkipsTo(c, q, gap, ":" + rest);
    ReadsParts(c, q + |gap|, ":", rest);
    start := q + |gap| + 1;
  }

  lemma MembersGoOn(c: string, o: nat, d: nat, next: nat)
    requires o < |c| && ParseMember(c, o, d).Some?
    requires SkipWhitespace(c, ParseMember(c, o, d).value.1) == next && Sees(c, next, ',')
    requires ParseMembers(c, next, d).Some?
    ensures var (m, more) := (ParseMember(c, o, d), ParseMembers(c, next, d));
      ParseMembers(c, o, d) == Some(([m.value.0] + more.value.0, more.value.1))
  {
    hide ParseMember;
  }

  lemma MembersEnd(c: string, o: nat, d: nat, next: nat)
    requires o < |c| && ParseMember(c, o, d).Some?
    requires SkipWhitespace(c, ParseMember(c, o, d).value.1) == next && Sees(c, next, '}')
    ensures ParseMembers(c, o, d) == Some(([ParseMember(c, o, d).value.0], next + 1))
  {
    hide ParseMember;
  }
}
