/**
  Whole documents, as they are handed to the parser: which byte strings it takes, and
  what it makes of them.
 */
module Documents {
  import opened CStrings
  import opened JsonValues
  import opened ParseSpec
  import opened Grammar
  import opened StringGrammar
  import opened ValueGrammar
  import opened AcceptedText
  import opened ParseRoundTrip

  const BOM: string := [0xEF as char, 0xBB as char, 0xBF as char]

  function Mark(bom: bool): string {
    if bom then BOM else ""
  }

  lemma NotMarked(s: Syntax)
    requires Fits(s)
    ensures Written(s) != "" && Written(s)[0] != BOM[0]
  {
    if s.Int? && !s.minus { assert Written(s)[0] == s.digits[0]; }
  }

  /** Where the value of a document starts, its mark and white space passed over. */
  lemma Starts(c: string, bom: bool, before: string, s: Syntax, rest: string)
    requires c == Mark(bom) + (before + (Written(s) + rest)) && IsBlank(before) && Fits(s) && rest != ""
    ensures var skip := if |c| > 4 && Reads(c, 0, BOM) then 3 else 0;
      skip == |Mark(bom)| && SkipWhitespace(c, skip) == skip + |before| < |c| && Reads(c, skip + |before|, Written(s)) &&
      Reads(c, skip + |before| + |Written(s)|, rest)
  {
    hide Written;
    hide SkipWhitespace;
    hide Fits;
    hide Reads;
    hide IsBlank;
    FirstOf(s);
    WholeReads(c);
    MarkedOrNot(c, bom, before, s, rest);
    ReadsParts(c, 0, Mark(bom), before + (Written(s) + rest));
    SkipsTo(c, |Mark(bom)|, before, Written(s) + rest);
    ReadsParts(c, |Mark(bom)| + |before|, Written(s), rest);
  }

  lemma WholeReads(c: string)
    ensures Reads(c, 0, c)
  {
  }

  lemma MarkedOrNot(c: string, bom: bool, before: string, s: Syntax, rest: string)
    requires c == Mark(bom) + (before + (Written(s) + rest)) && IsBlank(before) && Fits(s) && rest != ""
    ensures |c| > 4 && Reads(c, 0, BOM) <==> bom
  {
    hide Written;
    hide Fits;
    NotMarked(s);
    if bom {
      assert c[0..3] == BOM;
    } else {
      assert c[0] == (if before == "" then Written(s)[0] else before[0]);
      if Reads(c, 0, BOM) { ReadsHead(c, 0, BOM); }
    }
  }

  /** Up to the terminator there is nothing but white space, which the terminator counts as. */
  lemma {:induction false} SkipsAll(c: string, o: nat)
    requires o <= |c| && forall i :: o <= i < |c| ==> c[i] as int <= 32
    ensures SkipSpaces(c, o) == |c|
    decreases |c| - o
  {
    if o < |c| { SkipsAll(c, o + 1); }
  }

  lemma SkipsToTerminator(c: string, o: nat)
    requires o < |c| && (forall i :: o <= i < |c| ==> c[i] as int <= 32) && c[|c| - 1] == NUL
    ensures Sees(c, SkipWhitespace(c, o), NUL)
  {
    SkipsAll(c, o);
  }

  /**
    A C string that is a text of the grammar, with or without a byte order mark and
    with white space around it, is read as its value exactly if that nests no deeper
    than the parser allows.
   */
  lemma ParsesDocument(bom: bool, before: string, s: Syntax, after: string, requireTerminator: bool)
    requires Fits(s) && Clean(s) && IsBlank(before) && IsBlank(after)
    ensures var c := Mark(bom) + (before + (Written(s) + (after + [NUL])));
      ParseBytes(c, requireTerminator) == Some(ValueOf(s)) <==> Depth(ValueOf(s)) <= NESTING_LIMIT
  {
    hide ParseValue;
    hide Written;
    hide ValueOf;
    hide Fits;
    hide Clean;
    hide Depth;
    hide SkipWhitespace;
    hide Reads;
    var rest := after + [NUL];
    var c := Mark(bom) + (before + (Written(s) + rest));
    var o := |Mark(bom)| + |before|;
    Starts(c, bom, before, s, rest);
    var end := o + |Written(s)|;
    EndsHere(c, end, after, [NUL]);
    if Depth(ValueOf(s)) <= NESTING_LIMIT {
      ReadsWritten(c, o, s, 0);
      BlankToTerminator(c, end, after);
      SkipsToTerminator(c, end);
    } else if ParseValue(c, o, 0).Some? {
      NestingBounded(c, o, 0);
    }
  }

  lemma BlankToTerminator(c: string, end: nat, after: string)
    requires IsBlank(after) && Reads(c, end, after + [NUL]) && |c| == end + |after + [NUL]|
    ensures end < |c| && (forall i :: end <= i < |c| ==> c[i] as int <= 32) && c[|c| - 1] == NUL
  {
    ReadsEach(c, end, after + [NUL]);
    assert forall i :: end <= i < |c| ==> c[i] == (after + [NUL])[i - end];
  }

  /**
    And only such texts are read: behind the value come white space and the
    terminator, if that is required, and otherwise anything.
   */
  lemma OnlyDocuments(c: string, requireTerminator: bool) returns (bom: bool, before: string, s: Syntax, rest: string)
    requires ParseBytes(c, requireTerminator).Some?
    ensures c == Mark(bom) + (before + (Written(s) + rest)) && IsBlank(before) && Fits(s)
    ensures ParseBytes(c, requireTerminator) == Some(ValueOf(s)) && Depth(ValueOf(s)) <= NESTING_LIMIT
    ensures requireTerminator ==> rest != "" && IsBlank(rest) && rest[|rest| - 1] == NUL
  {
    hide ParseValue;
    hide Written;
    hide ValueOf;
    hide Fits;
    hide Depth;
    hide SkipWhitespace;
    hide IsBlank;
    hide Reads;
    bom := |c| > 4 && Reads(c, 0, BOM);
    var skip := |Mark(bom)|;
    var o := SkipWhitespace(c, skip);
    var end := ParseValue(c, o, 0).value.1;
    s := ValueRead(c, o, 0);
    NestingBounded(c, o, 0);
    SkippedIsBlank(c, skip);
    before, rest := c[skip..o], c[end..];
    MarkRead(c, bom);
    InPieces(c, skip, o, end, Mark(bom), Written(s));
    if requireTerminator { RestIsBlank(c, end, rest); }
  }

  lemma InPieces(c: string, i: nat, j: nat, k: nat, front: string, text: string)
    requires i <= j <= k <= |c| && c[..i] == front && Reads(c, j, text) && k == j + |text|
    ensures c == front + (c[i..j] + (text + c[k..]))
  {
    assert c[j..k] == text;
    assert c == c[..i] + (c[i..j] + (c[j..k] + c[k..]));
  }

  lemma MarkRead(c: string, bom: bool)
    requires bom ==> Reads(c, 0, BOM)
    ensures |Mark(bom)| <= |c| && c[..|Mark(bom)|] == Mark(bom)
  {
  }

  lemma RestIsBlank(c: string, end: nat, rest: string)
    requires end <= |c| && Sees(c, SkipWhitespace(c, end), NUL) && rest == c[end..]
    ensures rest != "" && IsBlank(rest) && rest[|rest| - 1] == NUL
  {
    var r := SkipWhitespace(c, end);
    assert SkipSpaces(c, end) == |c|;
  }
}
