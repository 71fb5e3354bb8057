/**
  Which string literals the parser reads, and as what: all those of the grammar, and
  no others.
 */
module StringGrammar {
  import opened Sequences
  import opened CStrings
  import opened JsonValues
  import opened JsonText
  import opened ParseSpec
  import opened UnicodeEscapes
  import opened Grammar

  // ----- what stands at an offset -----

  /** The bytes at o are s. */
  lemma ReadsParts(c: string, o: nat, a: string, b: string)
    requires Reads(c, o, a + b)
    ensures Reads(c, o, a) && Reads(c, o + |a|, b)
  {
    assert c[o..o + |a + b|][..|a|] == a && c[o..o + |a + b|][|a|..] == b;
  }

  lemma ReadsBoth(c: string, o: nat, a: string, b: string)
    requires Reads(c, o, a) && Reads(c, o + |a|, b)
    ensures Reads(c, o, a + b)
  {
    assert c[o..o + |a + b|] == c[o..o + |a|] + c[o + |a|..o + |a| + |b|];
  }

  lemma ReadsHead(c: string, o: nat, s: string)
    requires Reads(c, o, s) && s != []
    ensures o < |c| && c[o] == s[0] && Reads(c, o + 1, s[1..])
  {
    assert c[o..o + |s|][0] == s[0];
    assert s == [s[0]] + s[1..];
    ReadsParts(c, o, [s[0]], s[1..]);
  }

  lemma ReadsEach(c: string, o: nat, s: string)
    requires Reads(c, o, s)
    ensures o + |s| <= |c| && forall i :: 0 <= i < |s| ==> c[o + i] == s[i]
  {
    var r := c[o..o + |s|];
    assert forall i :: 0 <= i < |s| ==> c[o + i] == r[i];
  }

  // ----- a literal is read -----

  lemma UnitText(n: nat, caps: seq<bool>)
    requires n < 0x10000 && |caps| == 4
    ensures var s := Unit(n, caps);
      |s| == 6 && s[0] == BACKSLASH && s[1] == 'u' && forall i :: 2 <= i < 6 ==> s[i] != QUOTE && s[i] != BACKSLASH
  {
    hide HexLetter;
    DigitReads(n / 4096, caps[0]);
    DigitReads(n / 256 % 16, caps[1]);
    DigitReads(n / 16 % 16, caps[2]);
    DigitReads(n % 16, caps[3]);
  }

  lemma ScansUnit(c: string, p: nat, n: nat, caps: seq<bool>)
    requires n < 0x10000 && |caps| == 4 && Reads(c, p, Unit(n, caps))
    ensures ScanString(c, p) == ScanString(c, p + 6)
  {
    var s := Unit(n, caps);
    UnitText(n, caps);
    ReadsEach(c, p, s);
    hide Unit;
    assert c[p] == s[0] && c[p + 1] == s[1] && c[p + 2] == s[2] && c[p + 3] == s[3] && c[p + 4] == s[4] && c[p + 5] == s[5];
    assert ScanString(c, p) == ScanString(c, p + 2);
    assert ScanString(c, p + 2) == ScanString(c, p + 3);
    assert ScanString(c, p + 3) == ScanString(c, p + 4);
    assert ScanString(c, p + 4) == ScanString(c, p + 5);
    assert ScanString(c, p + 5) == ScanString(c, p + 6);
  }

  /** The first pass goes over a piece as a whole. */
  lemma ScansPiece(c: string, p: nat, piece: Piece)
    requires FitsPiece(piece) && Reads(c, p, PieceText(piece))
    ensures ScanString(c, p) == ScanString(c, p + |PieceText(piece)|) && PieceText(piece) != ""
  {
    hide ScanString;
    var s := PieceText(piece);
    match piece {
      case Plain(_) =>
        ReadsEach(c, p, s);
        ScanStep(c, p);
      case Short(_) =>
        ReadsEach(c, p, s);
        assert c[p] == s[0];
        ScanStep(c, p);
      case Escaped(codepoint, caps) =>
        hide Unit;
        ScansEscaped(c, p, codepoint, caps);
    }
  }

  lemma ScanStep(c: string, p: nat)
    requires p < |c|
    ensures c[p] != QUOTE && c[p] != BACKSLASH ==> ScanString(c, p) == ScanString(c, p + 1)
    ensures c[p] == BACKSLASH && p + 1 < |c| ==> ScanString(c, p) == ScanString(c, p + 2)
  {
  }

  lemma ScansEscaped(c: string, p: nat, codepoint: nat, caps: seq<bool>)
    requires IsScalar(codepoint) && |caps| == 8 && Reads(c, p, EscapeText(codepoint, caps))
    ensures ScanString(c, p) == ScanString(c, p + |EscapeText(codepoint, caps)|) && |EscapeText(codepoint, caps)| > 0
  {
    hide ScanString;
    if codepoint < 0x10000 {
      UnitText(codepoint, caps[..4]);
      ScansUnit(c, p, codepoint, caps[..4]);
    } else {
      var high, low := 0xD800 + (codepoint - 0x10000) / 1024, 0xDC00 + (codepoint - 0x10000) % 1024;
      UnitText(high, caps[..4]);
      UnitText(low, caps[4..]);
      ReadsParts(c, p, Unit(high, caps[..4]), Unit(low, caps[4..]));
      ScansUnit(c, p, high, caps[..4]);
      ScansUnit(c, p + 6, low, caps[4..]);
    }
  }

  /** The second pass makes of it what it stands for. */
  lemma UnescapesPiece(c: string, p: nat, end: nat, piece: Piece)
    requires FitsPiece(piece) && Reads(c, p, PieceText(piece)) && p + |PieceText(piece)| <= end < |c| && PieceText(piece) != ""
    ensures UnescapeOne(c, p, end) == Some((PieceMeaning(piece), |PieceText(piece)|))
  {
    hide Utf16Literal;
    hide EscapeText;
    var s := PieceText(piece);
    ReadsEach(c, p, s);
    match piece {
      case Plain(_) =>
      case Short(letter) =>
        assert c[p] == s[0] && c[p + 1] == s[1];
        ShortMeans(letter);
      case Escaped(codepoint, caps) =>
        EscapeStarts(codepoint, caps);
        assert c[p] == s[0] && c[p + 1] == s[1];
        EscapeDecodes(c, p, end, codepoint, caps);
    }
  }

  lemma ShortMeans(letter: char)
    ensures Unshort(letter) == if letter in SHORT then Some(SHORT[letter]) else None
    ensures letter in SHORT ==> letter != 'u'
  {
  }

  lemma EscapeStarts(codepoint: nat, caps: seq<bool>)
    requires IsScalar(codepoint) && |caps| == 8
    ensures var s := EscapeText(codepoint, caps); |s| >= 6 && s[0] == BACKSLASH && s[1] == 'u'
  {
  }

  lemma {:induction false} ScansPieces(c: string, p: nat, ps: seq<Piece>)
    requires FitPieces(ps) && Reads(c, p, PiecesText(ps))
    ensures ScanString(c, p) == ScanString(c, p + |PiecesText(ps)|)
    decreases |ps|
  {
    hide ScanString;
    hide PieceText;
    if ps != [] {
      ReadsParts(c, p, PieceText(ps[0]), PiecesText(ps[1..]));
      ScansPiece(c, p, ps[0]);
      ScansPieces(c, p + |PieceText(ps[0])|, ps[1..]);
    }
  }

  lemma {:induction false} UnescapesPieces(c: string, p: nat, ps: seq<Piece>, end: nat)
    requires FitPieces(ps) && Reads(c, p, PiecesText(ps)) && p + |PiecesText(ps)| == end < |c|
    ensures Unescape(c, p, end) == Some(Spelled(ps))
    decreases |ps|
  {
    hide UnescapeOne;
    hide PieceText;
    hide PieceMeaning;
    if ps != [] {
      ReadsParts(c, p, PieceText(ps[0]), PiecesText(ps[1..]));
      ScansPiece(c, p, ps[0]);
      UnescapesPiece(c, p, end, ps[0]);
      UnescapesPieces(c, p + |PieceText(ps[0])|, ps[1..], end);
    }
  }

  /** A literal of the grammar is read as what it stands for, up to its closing quote. */
  lemma ReadsLiteral(c: string, o: nat, l: Literal)
    requires FitsLiteral(l) && l.junk == "" && Reads(c, o, LiteralText(l))
    ensures o < |c| && c[o] == QUOTE && ParseString(c, o) == Some((LiteralMeaning(l), o + |LiteralText(l)|))
  {
    hide ScanString;
    hide Unescape;
    hide PiecesText;
    hide Spelled;
    hide Truncate;
    hide FitPieces;
    hide Reads;
    var text, rest := PiecesText(l.ps), [QUOTE];
    assert l.junk + rest == rest;
    ReadsParts(c, o, [QUOTE], text + rest);
    ReadsParts(c, o + 1, text, rest);
    ReadsEach(c, o, [QUOTE]);
    ReadsEach(c, o + 1 + |text|, rest);
    ScansPieces(c, o + 1, l.ps);
    ScanClosed(c, o + 1 + |text|);
    UnescapesPieces(c, o + 1, l.ps, o + 1 + |text|);
  }

  lemma ScanClosed(c: string, p: nat)
    requires p < |c| && c[p] == QUOTE
    ensures ScanString(c, p) == Some(p)
  {
  }

  // ----- nothing else is -----

  /** Four bytes that are not read as 0 are digits. */
  lemma HexOf(s: string) returns (caps: seq<bool>)
    requires |s| == 4 && (Hex4(s) != 0 || AllHex(s))
    ensures |caps| == 4 && s == HexText(Hex4(s), caps)
  {
    hide HexLetter;
    hide HexValue;
    if AllHex(s) {
      forall i | 0 <= i < 4
        ensures HexValue(s[i]).Some?
      {
        var d, cap :| 0 <= d < 16 && s[i] == HexLetter(d, cap);
        DigitReads(d, cap);
      }
    }
    DigitIsRead(s[0]);
    DigitIsRead(s[1]);
    DigitIsRead(s[2]);
    DigitIsRead(s[3]);
    var a :| s[0] == HexLetter(HexValue(s[0]).value, a);
    var b :| s[1] == HexLetter(HexValue(s[1]).value, b);
    var c :| s[2] == HexLetter(HexValue(s[2]).value, c);
    var d :| s[3] == HexLetter(HexValue(s[3]).value, d);
    caps := [a, b, c, d];
    Nibbles4(HexValue(s[0]).value, HexValue(s[1]).value, HexValue(s[2]).value, HexValue(s[3]).value);
  }

  lemma Nibbles4(a: nat, b: nat, c: nat, d: nat)
    requires a < 16 && b < 16 && c < 16 && d < 16
    ensures var n := ((a * 16 + b) * 16 + c) * 16 + d;
      n < 0x10000 && n / 4096 == a && n / 256 % 16 == b && n / 16 % 16 == c && n % 16 == d
  {
    var n := ((a * 16 + b) * 16 + c) * 16 + d;
    assert n / 16 == (a * 16 + b) * 16 + c;
    assert n / 256 == a * 16 + b;
  }

  lemma SliceOf(c: string, p: nat, end: nat)
    requires p + 6 <= end <= |c|
    ensures c[p..end][2..6] == c[p + 2..p + 6]
  {
    var s := c[p..end];
    assert forall i :: 0 <= i < 4 ==> s[2..6][i] == s[2 + i] == c[p + 2 + i];
  }

  /** Whether a \u without its digits stands at p. */
  predicate SloppyAt(c: string, p: nat, end: nat)
    requires p <= end <= |c|
  {
    Sloppy(c[p..end])
  }

  /** What the second pass reads as one turn is a piece, unless it is a \u without its digits. */
  lemma OnePiece(c: string, p: nat, end: nat) returns (piece: Piece)
    requires p < end < |c| && ScanString(c, p) == Some(end) && UnescapeOne(c, p, end).Some? && !SloppyAt(c, p, end)
    ensures FitsPiece(piece) && Reads(c, p, PieceText(piece)) && p + |PieceText(piece)| <= end
  {
    assert c[p] != QUOTE;
    if c[p] != BACKSLASH {
      piece := Plain(c[p]);
      assert c[p..p + 1] == PieceText(piece);
    } else {
      InsideScan(c, p, end);
      if c[p + 1] == 'u' {
        piece := EscapedPiece(c, p, end);
      } else {
        piece := Short(c[p + 1]);
        ShortMeans(c[p + 1]);
        assert c[p..p + 2] == PieceText(piece);
      }
    }
  }

  lemma InsideScan(c: string, p: nat, end: nat)
    requires p < end < |c| && ScanString(c, p) == Some(end) && c[p] == BACKSLASH
    ensures p + 2 <= end && ScanString(c, p + 2) == Some(end)
  {
  }

  lemma EscapedPiece(c: string, p: nat, end: nat) returns (piece: Piece)
    requires p + 2 <= end < |c| && c[p] == BACKSLASH && c[p + 1] == 'u' && Utf16Literal(c, p, end).Some? && !SloppyAt(c, p, end)
    ensures piece.Escaped? && FitsPiece(piece) && Reads(c, p, PieceText(piece)) && p + |PieceText(piece)| <= end
  {
    hide HexText;
    hide Hex4;
    var h := c[p + 2..p + 6];
    var junk := c[p..end];
    assert junk[0] == c[p] && junk[1] == c[p + 1];
    SliceOf(c, p, end);
    var first := Hex4(h);
    var caps := HexOf(h);
    UnitReads(c, p, first, caps);
    if 0xD800 <= first <= 0xDBFF {
      var h2 := c[p + 8..p + 12];
      var second := Hex4(h2);
      var caps2 := HexOf(h2);
      UnitReads(c, p + 6, second, caps2);
      var n := 0x10000 + (first - 0xD800) * 1024 + (second - 0xDC00);
      Surrogates(first, second);
      var all := caps + caps2;
      assert all[..4] == caps && all[4..] == caps2;
      piece := Escaped(n, all);
      hide Unit;
      ReadsBoth(c, p, Unit(first, caps), Unit(second, caps2));
      UnitText(first, caps);
      UnitText(second, caps2);
    } else {
      var all := caps + caps;
      assert all[..4] == caps;
      piece := Escaped(first, all);
      UnitText(first, caps);
    }
  }

  lemma Surrogates(first: nat, second: nat)
    requires 0xD800 <= first <= 0xDBFF && 0xDC00 <= second <= 0xDFFF
    ensures var n := 0x10000 + (first - 0xD800) * 1024 + (second - 0xDC00);
      n <= 0x10FFFF && 0xD800 + (n - 0x10000) / 1024 == first && 0xDC00 + (n - 0x10000) % 1024 == second
  {
  }

  lemma UnitReads(c: string, p: nat, n: nat, caps: seq<bool>)
    requires p + 6 <= |c| && c[p] == BACKSLASH && c[p + 1] == 'u' && n < 0x10000 && |caps| == 4 && c[p + 2..p + 6] == HexText(n, caps)
    ensures Reads(c, p, Unit(n, caps))
  {
    hide HexText;
    assert |HexText(n, caps)| == 4;
    assert c[p..p + 6] == [c[p], c[p + 1]] + c[p + 2..p + 6];
  }

  lemma {:induction false} TruncateBehind(a: string, x: string, y: string)
    requires Truncate(x) == Truncate(y)
    ensures Truncate(a + x) == Truncate(a + y)
  {
    if a == "" {
      assert a + x == x && a + y == y;
    } else {
      assert (a + x)[1..] == a[1..] + x && (a + y)[1..] == a[1..] + y;
      TruncateBehind(a[1..], x, y);
    }
  }

  lemma WholeSlice(c: string, p: nat, end: nat)
    requires p <= end <= |c|
    ensures Reads(c, p, c[p..end]) && (p == end ==> Reads(c, p, "")) && Truncate("") == ""
  {
  }

  /** So what the parser reads between two quotes is a literal. */
  lemma {:induction false} Pieced(c: string, p: nat, end: nat) returns (l: Literal)
    requires p <= end < |c| && ScanString(c, p) == Some(end) && Unescape(c, p, end).Some?
    ensures FitsLiteral(l) && Reads(c, p, PiecesText(l.ps) + l.junk) && p + |PiecesText(l.ps) + l.junk| == end
    ensures Truncate(Unescape(c, p, end).value) == LiteralMeaning(l)
    decreases end - p
  {
    hide ScanString;
    hide UnescapeOne;
    hide PieceText;
    hide PieceMeaning;
    hide Truncate;
    hide Sloppy;
    hide FitsPiece;
    hide Reads;
    if p == end {
      WholeSlice(c, p, end);
      l := Literal([], "");
      assert PiecesText(l.ps) + l.junk == "";
    } else if SloppyAt(c, p, end) {
      l := Literal([], c[p..end]);
      assert PiecesText(l.ps) + l.junk == c[p..end];
      WholeSlice(c, p, end);
      SloppyIsNul(c, p, end);
    } else {
      var piece := OnePiece(c, p, end);
      var q := p + |PieceText(piece)|;
      ScansPiece(c, p, piece);
      UnescapesPiece(c, p, end, piece);
      var more := Pieced(c, q, end);
      l := Literal([piece] + more.ps, more.junk);
      assert l.ps[1..] == more.ps;
      Append(PieceText(piece), PiecesText(more.ps), more.junk);
      ReadsBoth(c, p, PieceText(piece), PiecesText(more.ps) + more.junk);
      TruncateBehind(PieceMeaning(piece), Unescape(c, q, end).value, Spelled(more.ps));
    }
  }

  lemma SloppyIsNul(c: string, p: nat, end: nat)
    requires p <= end < |c| && SloppyAt(c, p, end) && Unescape(c, p, end).Some?
    ensures Truncate(Unescape(c, p, end).value) == ""
  {
    hide HexLetter;
    hide HexValue;
    var h := c[p + 2..p + 6];
    var junk := c[p..end];
    assert junk[0] == c[p] && junk[1] == c[p + 1];
    SliceOf(c, p, end);
    if Hex4(h) != 0 {
      var caps := HexOf(h);
      AllDigits(h, caps);
      assert false;
    }
    assert UnescapeOne(c, p, end) == Some(([NUL], 6));
  }

  lemma AllDigits(h: string, caps: seq<bool>)
    requires |h| == 4 && |caps| == 4 && h == HexText(Hex4(h), caps)
    ensures AllHex(h)
  {
    hide HexLetter;
    var n := Hex4(h);
    assert h[0] == HexLetter(n / 4096, caps[0]) && h[1] == HexLetter(n / 256 % 16, caps[1]);
    assert h[2] == HexLetter(n / 16 % 16, caps[2]) && h[3] == HexLetter(n % 16, caps[3]);
  }

  lemma ReadIsLiteral(c: string, o: nat) returns (l: Literal)
    requires o < |c| && ParseString(c, o).Some?
    ensures FitsLiteral(l) && Reads(c, o, LiteralText(l)) && ParseString(c, o) == Some((LiteralMeaning(l), o + |LiteralText(l)|))
  {
    hide Unescape;
    hide PiecesText;
    hide Spelled;
    hide FitPieces;
    hide Sloppy;
    hide LiteralMeaning;
    var end := ScanString(c, o + 1).value;
    hide ScanString;
    l := Pieced(c, o + 1, end);
    var text := PiecesText(l.ps) + l.junk;
    assert c[o..o + 1] == [QUOTE] && c[end..end + 1] == [QUOTE];
    ReadsBoth(c, o + 1, text, [QUOTE]);
    ReadsBoth(c, o, [QUOTE], text + [QUOTE]);
    Append(PiecesText(l.ps), l.junk, [QUOTE]);
  }
}
