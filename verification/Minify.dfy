/**
  cJSON_Minify: white space and comments are dropped in place, and exactly when
  that turns formatted text into unformatted text.
 */
module Minify {
  import opened Sequences
  import opened CStrings
  import opened JsonText

  predicate IsSpace(c: char) {
    c == ' ' || c == '\t' || c == '\r' || c == '\n'
  }

  // ----- what one pass over a NUL-free text does -----

  /** skip_oneline_comment, behind the two slashes. */
  function LineLength(s: string): (n: nat)
    ensures n <= |s|
  {
    if s == "" then 0 else if s[0] == '\n' then 1 else 1 + LineLength(s[1..])
  }

  /** skip_multiline_comment, behind its opening. */
  function BlockLength(s: string): (n: nat)
    ensures n <= |s|
  {
    if s == "" then 0
    else if |s| > 1 && s[0] == '*' && s[1] == '/' then 2
    else 1 + BlockLength(s[1..])
  }

  /** minify_string, behind the opening quote. A backslash before a quote always hides it. */
  function StringLength(s: string): (n: nat)
    ensures n <= |s|
  {
    if s == "" then 0
    else if s[0] == QUOTE then 1
    else if s[0] == BACKSLASH && |s| > 1 && s[1] == QUOTE then 2 + StringLength(s[2..])
    else 1 + StringLength(s[1..])
  }

  function Minified(s: string): (r: string)
    ensures |r| <= |s|
    decreases |s|, 0
  {
    if s == "" then ""
    else if IsSpace(s[0]) then Minified(s[1..])
    else if s[0] == '/' then
      if |s| > 1 && s[1] == '/' then Minified(s[2..][LineLength(s[2..])..])
      else if |s| > 1 && s[1] == '*' then Minified(s[2..][BlockLength(s[2..])..])
      else Minified(s[1..])
    else if s[0] == QUOTE then [QUOTE] + InString(s[1..])
    else [s[0]] + Minified(s[1..])
  }

  /** The rest of a pass that stands inside a string. */
  function InString(s: string): (r: string)
    ensures |r| <= |s|
    decreases |s|, 1
  {
    var n := StringLength(s);
    s[..n] + if n == 0 then "" else Minified(s[n..])
  }

  // ----- the loops -----

  /** The C string s is in the buffer from position r on. */
  ghost predicate Pending(a: array<char>, r: nat, s: string)
    reads a
  {
    r + |s| < a.Length && a[r + |s|] == NUL && forall i :: 0 <= i < |s| ==> a[r + i] == s[i] && s[i] != NUL
  }

  lemma Looks(a: array<char>, r: nat, s: string)
    requires Pending(a, r, s)
    ensures r + |s| < a.Length && a[r] == (if s == "" then NUL else s[0])
    ensures s != "" ==> a[r] != NUL && a[r + 1] == (if |s| == 1 then NUL else s[1]) && Pending(a, r + 1, s[1..])
  {
  }

  method SkipLine(a: array<char>, r: nat, ghost s: string) returns (next: nat)
    requires |s| > 1 && Pending(a, r, s)
    ensures next == r + 2 + LineLength(s[2..]) && Pending(a, next, s[2..][LineLength(s[2..])..])
  {
    next := r + 2;
    ghost var rest := s[2..];
    assert Pending(a, next, rest);
    while a[next] != NUL
      invariant Pending(a, next, rest) && next + |rest| == r + |s|
      invariant |rest| <= |s| - 2 && rest == s[|s| - |rest|..]
      invariant next + LineLength(rest) == r + 2 + LineLength(s[2..])
      decreases |rest|
    {
      if a[next] == '\n' {
        rest, next := rest[1..], next + 1;
        break;
      }
      rest, next := rest[1..], next + 1;
    }
    assert s[2..][LineLength(s[2..])..] == rest;
  }

  method SkipBlock(a: array<char>, r: nat, ghost s: string) returns (next: nat)
    requires |s| > 1 && Pending(a, r, s)
    ensures next == r + 2 + BlockLength(s[2..]) && Pending(a, next, s[2..][BlockLength(s[2..])..])
  {
    next := r + 2;
    ghost var rest := s[2..];
    Looks(a, r, s);
    Looks(a, r + 1, s[1..]);
    assert s[1..][1..] == rest;
    hide Pending;
    while a[next] != NUL
      invariant next < a.Length && Pending(a, next, rest) && next + |rest| == r + |s|
      invariant |rest| <= |s| - 2 && rest == s[|s| - |rest|..]
      invariant next + BlockLength(rest) == r + 2 + BlockLength(s[2..])
      decreases |rest|
    {
      Looks(a, next, rest);
      Looks(a, next + 1, rest[1..]);
      if a[next] == '*' && a[next + 1] == '/' {
        assert rest[0] == '*' && |rest| > 1 && rest[1] == '/';
        rest, next := rest[2..], next + 2;
        break;
      }
      rest, next := rest[1..], next + 1;
    }
    assert s[2..][BlockLength(s[2..])..] == rest;
  }

  /** One byte moves from the read to the write position. */
  method CopyByte(a: array<char>, r: nat, w: nat, ghost s: string, ghost written: string)
    requires w <= r && Pending(a, r, s) && s != "" && a[..w] == written
    modifies a
    ensures a[..w + 1] == written + [s[0]]
    ensures Pending(a, r + 1, s[1..]) && forall i :: 0 <= i < a.Length && i != w ==> a[i] == old(a[i])
    ensures a[r] == old(a[r])
  {
    a[w] := a[r];
  }

  /** The first n bytes of s have moved from position r to position w. */
  ghost predicate Moved(a: array<char>, r: nat, w: nat, s: string, n: nat, before: string)
    reads a
  {
    w <= r && n <= |s| && Pending(a, r + n, s[n..]) && |before| == a.Length &&
    a[..w + n] == before[..w] + s[..n] && forall i :: w + n <= i < a.Length ==> a[i] == before[i]
  }

  method CopyNext(a: array<char>, read: nat, write: nat,
                  ghost r: nat, ghost w: nat, ghost s: string, ghost n: nat, ghost before: string)
    requires n < |s| && read == r + n && write == w + n && Moved(a, r, w, s, n, before)
    modifies a
    ensures Moved(a, r, w, s, n + 1, before) && a[read] == s[n]
  {
    assert s[n..][0] == s[n] && s[n..][1..] == s[n + 1..];
    assert (before[..w] + s[..n]) + [s[n]] == before[..w] + s[..n + 1];
    CopyByte(a, read, write, s[n..], before[..w] + s[..n]);
  }

  lemma Ahead(a: array<char>, r: nat, w: nat, s: string, n: nat, before: string)
    requires Moved(a, r, w, s, n, before)
    ensures r + |s| < a.Length
    ensures a[r + n] == if n < |s| then s[n] else NUL
    ensures n < |s| ==> a[r + n] != NUL && a[r + n + 1] == if n + 1 < |s| then s[n + 1] else NUL
  {
    if n < |s| { assert s[n..][0] == s[n]; }
    if n + 1 < |s| { assert s[n..][1] == s[n + 1]; }
  }

  /** Where the scan of a literal ends when it has come to n. */
  function StringEnd(s: string, n: nat): nat
    requires n <= |s|
  {
    n + StringLength(s[n..])
  }

  lemma StringStep(s: string, n: nat)
    requires n <= |s|
    ensures n == |s| ==> StringEnd(s, n) == n
    ensures n < |s| && s[n] == QUOTE ==> StringEnd(s, n) == n + 1
    ensures n < |s| && s[n] == BACKSLASH && n + 1 < |s| && s[n + 1] == QUOTE ==> StringEnd(s, n) == StringEnd(s, n + 2)
    ensures n < |s| && s[n] != QUOTE && !(s[n] == BACKSLASH && n + 1 < |s| && s[n + 1] == QUOTE) ==>
      StringEnd(s, n) == StringEnd(s, n + 1)
  {
    if n < |s| { assert s[n..][1..] == s[n + 1..]; }
    if n + 1 < |s| { assert s[n..][2..] == s[n + 2..]; }
  }

  /** One turn of minify_string: a byte moves, or an escaped quote does; the closing quote ends it. */
  method StringTurn(a: array<char>, read: nat, write: nat,
                    ghost r: nat, ghost w: nat, ghost s: string, ghost n: nat, ghost before: string)
    returns (k: nat, closed: bool)
    requires n < |s| && read == r + n && write == w + n && Moved(a, r, w, s, n, before)
    modifies a
    ensures k > 0 && n + k <= |s| && Moved(a, r, w, s, n + k, before)
    ensures StringEnd(s, n) == if closed then n + k else StringEnd(s, n + k)
  {
    hide StringEnd;
    hide Moved;
    Ahead(a, r, w, s, n, before);
    StringStep(s, n);
    CopyNext(a, read, write, r, w, s, n, before);
    Ahead(a, r, w, s, n + 1, before);
    k, closed := 1, a[read] == QUOTE;
    if !closed && a[read] == BACKSLASH && a[read + 1] == QUOTE {
      CopyNext(a, read + 1, write + 1, r, w, s, n + 1, before);
      k := 2;
    }
  }

  /** minify_string: the write position keeps its distance to the read position. */
  method MinifyString(a: array<char>, r: nat, w: nat, ghost s: string) returns (read: nat, write: nat)
    requires w <= r && Pending(a, r, s) && s != "" && s[0] == QUOTE
    modifies a
    ensures var n := StringEnd(s, 1); read == r + n && write == w + n && Moved(a, r, w, s, n, old(a[..]))
  {
    hide StringEnd;
    hide StringLength;
    hide Moved;
    hide Pending;
    ghost var before := a[..];
    ghost var n: nat := 1;
    NothingMoved(a, r, w, s);
    CopyNext(a, r, w, r, w, s, 0, before);
    read, write := r + 1, w + 1;
    Ahead(a, r, w, s, 1, before);
    while a[read] != NUL
      invariant Moved(a, r, w, s, n, before) && n <= |s| && read == r + n < a.Length && write == w + n
      invariant StringEnd(s, n) == StringEnd(s, 1)
      decreases |s| - n
    {
      Ahead(a, r, w, s, n, before);
      var k, closed := StringTurn(a, read, write, r, w, s, n, before);
      n, read, write := n + k, read + k, write + k;
      if closed { return; }
      Ahead(a, r, w, s, n, before);
    }
    Ahead(a, r, w, s, n, before);
    StringStep(s, n);
  }

  lemma NowPending(a: array<char>, r: nat, w: nat, s: string, n: nat, before: string)
    requires Moved(a, r, w, s, n, before)
    ensures Pending(a, r + n, s[n..]) && a[..w + n] == before[..w] + s[..n]
    ensures forall i :: w + n <= i < a.Length ==> a[i] == before[i]
  {
  }

  lemma NothingMoved(a: array<char>, r: nat, w: nat, s: string)
    requires w <= r && Pending(a, r, s)
    ensures Moved(a, r, w, s, 0, a[..])
  {
    assert s[0..] == s && a[..w + 0] == a[..w] + s[..0];
  }

  lemma MinifiedStep(s: string)
    requires s != ""
    ensures IsSpace(s[0]) ==> Minified(s) == Minified(s[1..])
    ensures s[0] == '/' && |s| > 1 && s[1] == '/' ==> Minified(s) == Minified(s[2..][LineLength(s[2..])..])
    ensures s[0] == '/' && |s| > 1 && s[1] == '*' ==> Minified(s) == Minified(s[2..][BlockLength(s[2..])..])
    ensures s[0] == '/' && !(|s| > 1 && (s[1] == '/' || s[1] == '*')) ==> Minified(s) == Minified(s[1..])
    ensures !IsSpace(s[0]) && s[0] != '/' && s[0] != QUOTE ==> Minified(s) == [s[0]] + Minified(s[1..])
  {
  }

  lemma MinifiedString(s: string)
    requires s != "" && s[0] == QUOTE
    ensures var n := 1 + StringLength(s[1..]); Minified(s) == s[..n] + Minified(s[n..])
  {
    hide StringLength;
    hide Minified;
    hide InString;
    var n := StringLength(s[1..]);
    MinifiedQuote(s);
    assert s[..n + 1] == [QUOTE] + s[1..][..n] && s[1..][n..] == s[n + 1..];
    InStringSplits(s[1..]);
    Append([QUOTE], s[1..][..n], Minified(s[n + 1..]));
  }

  lemma MinifiedQuote(s: string)
    requires s != "" && s[0] == QUOTE
    ensures Minified(s) == [QUOTE] + InString(s[1..])
  {
  }

  lemma InStringSplits(s: string)
    ensures InString(s) == s[..StringLength(s)] + Minified(s[StringLength(s)..])
  {
  }

  /** A slash: a comment is passed over, and so is a slash that starts none. */
  method SkipSlash(a: array<char>, r: nat, ghost s: string) returns (next: nat, ghost rest: string)
    requires Pending(a, r, s) && s != "" && s[0] == '/'
    ensures |rest| < |s| && rest == s[|s| - |rest|..] && next + |rest| == r + |s|
    ensures Pending(a, next, rest) && Minified(rest) == Minified(s)
  {
    hide Minified;
    hide LineLength;
    hide BlockLength;
    hide Pending;
    Looks(a, r, s);
    MinifiedStep(s);
    if a[r + 1] == '/' {
      next := SkipLine(a, r, s);
      rest := s[2..][LineLength(s[2..])..];
    } else if a[r + 1] == '*' {
      next := SkipBlock(a, r, s);
      rest := s[2..][BlockLength(s[2..])..];
    } else {
      next, rest := r + 1, s[1..];
    }
  }

  lemma Moves(written: string, part: string, more: string, left: string, all: string)
    requires written + left == all && left == part + more
    ensures (written + part) + more == all
  {
  }

  /** Between two turns: written is at the front, rest still to come, and together they give the result. */
  ghost predicate Halfway(a: array<char>, r: nat, w: nat, before: string, written: string, rest: string)
    reads a
  {
    w <= r && r + |rest| == |Truncate(before)| < a.Length == |before| && Pending(a, r, rest) &&
    a[..w] == written && NUL !in written && NUL !in rest &&
    written + Minified(rest) == Minified(Truncate(before)) &&
    forall i :: |Truncate(before)| <= i < a.Length ==> a[i] == before[i]
  }

  lemma PassOver(a: array<char>, r: nat, w: nat, before: string, written: string, rest: string, next: nat, left: string)
    requires Halfway(a, r, w, before, written, rest) && |left| < |rest| && left == rest[|rest| - |left|..]
    requires next + |left| == r + |rest| && Pending(a, next, left) && Minified(left) == Minified(rest)
    ensures Halfway(a, next, w, before, written, left)
  {
  }

  method KeepByte(a: array<char>, r: nat, w: nat, ghost before: string, ghost written: string, ghost rest: string)
    requires Halfway(a, r, w, before, written, rest) && rest != "" && Minified(rest) == [rest[0]] + Minified(rest[1..])
    modifies a
    ensures Halfway(a, r + 1, w + 1, before, written + [rest[0]], rest[1..])
  {
    hide Minified;
    CopyByte(a, r, w, rest, written);
    Moves(written, [rest[0]], Minified(rest[1..]), Minified(rest), Minified(Truncate(before)));
  }

  method KeepString(a: array<char>, r: nat, w: nat, ghost before: string, ghost written: string, ghost rest: string)
    returns (read: nat, write: nat, ghost n: nat)
    requires Halfway(a, r, w, before, written, rest) && rest != "" && rest[0] == QUOTE
    modifies a
    ensures n == 1 + StringLength(rest[1..]) && Halfway(a, read, write, before, written + rest[..n], rest[n..])
  {
    hide Minified;
    hide StringLength;
    hide Moved;
    n := 1 + StringLength(rest[1..]);
    ghost var here := a[..];
    MinifiedString(rest);
    read, write := MinifyString(a, r, w, rest);
    NowPending(a, r, w, rest, n, here);
    Moves(written, rest[..n], Minified(rest[n..]), Minified(rest), Minified(Truncate(before)));
  }

  /** cJSON_Minify on the C string in a buffer; the buffer is used for the result. */
  method Minify(a: array<char>)
    requires NUL in a[..]
    modifies a
    ensures Truncate(a[..]) == Minified(old(Truncate(a[..])))
    ensures forall i :: |old(Truncate(a[..]))| <= i < a.Length ==> a[i] == old(a[i])
  {
    hide Minified;
    hide Truncate;
    hide Pending;
    hide Halfway;
    ghost var before := a[..];
    ghost var rest, written := Truncate(before), "";
    var r, w := 0, 0;
    AtFirst(a);
    while a[r] != NUL
      invariant 0 <= w <= r < a.Length && (a[r] == NUL <==> rest == "") && Halfway(a, r, w, before, written, rest)
      decreases |rest|
    {
      Ongoing(a, r, w, before, written, rest);
      MinifiedStep(rest);
      if IsSpace(a[r]) {
        PassOver(a, r, w, before, written, rest, r + 1, rest[1..]);
        r, rest := r + 1, rest[1..];
      } else if a[r] == '/' {
        ghost var r0, rest0 := r, rest;
        r, rest := SkipSlash(a, r, rest);
        PassOver(a, r0, w, before, written, rest0, r, rest);
      } else if a[r] == QUOTE {
        ghost var n;
        r, w, n := KeepString(a, r, w, before, written, rest);
        written, rest := written + rest[..n], rest[n..];
      } else {
        KeepByte(a, r, w, before, written, rest);
        r, w := r + 1, w + 1;
        written, rest := written + [rest[0]], rest[1..];
      }
      Ongoing(a, r, w, before, written, rest);
    }
    Done(a, r, w, before, written, rest);
    a[w] := NUL;
    AtLast(a, w, written);
  }

  lemma Ongoing(a: array<char>, r: nat, w: nat, before: string, written: string, rest: string)
    requires Halfway(a, r, w, before, written, rest)
    ensures w <= r < a.Length && Pending(a, r, rest) && a[r] == (if rest == "" then NUL else rest[0])
    ensures rest != "" ==> r + 1 < a.Length && Pending(a, r + 1, rest[1..]) && r + |rest| == |Truncate(before)|
    ensures rest != "" ==> a[r] != NUL
  {
    hide Minified;
    Looks(a, r, rest);
  }

  lemma Done(a: array<char>, r: nat, w: nat, before: string, written: string, rest: string)
    requires Halfway(a, r, w, before, written, rest) && rest == ""
    ensures a[..w] == written && NUL !in written && written == Minified(Truncate(before))
    ensures r == |Truncate(before)| && forall i :: r <= i < a.Length ==> a[i] == before[i]
  {
    hide Minified;
    MinifiedNothing();
    assert written + "" == written;
  }

  lemma AtFirst(a: array<char>)
    requires NUL in a[..]
    ensures Halfway(a, 0, 0, a[..], "", Truncate(a[..])) && a.Length > 0 && (a[0] == NUL <==> Truncate(a[..]) == "")
  {
    AllPending(a);
    assert "" + Minified(Truncate(a[..])) == Minified(Truncate(a[..]));
  }

  lemma AtLast(a: array<char>, w: nat, written: string)
    requires w < a.Length && a[..w] == written && NUL !in written && a[w] == NUL
    ensures Truncate(a[..]) == written
  {
    assert a[..] == written + [NUL] + a[w + 1..];
    TruncateCString(written, a[w + 1..]);
  }

  lemma AllPending(a: array<char>)
    requires NUL in a[..]
    ensures Pending(a, 0, Truncate(a[..])) && |Truncate(a[..])| < a.Length
  {
    var s := Truncate(a[..]);
    assert s <= a[..] && s != a[..];
  }

  lemma MinifiedNothing()
    ensures Minified("") == ""
  {
  }
}
