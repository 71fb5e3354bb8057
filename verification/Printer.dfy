/**
  The printer: it writes through a buffer that grows on demand, or must not grow,
  and finds its place again with strlen. Whatever the buffer does, what it holds in
  the end is the text of the tree, and printing fails exactly when that text and two
  spare bytes do not fit.
 */
module Printer {
  import opened Sequences
  import opened CStrings
  import opened JsonValues
  import opened JsonText

  /** The stores through the output pointer: s at position `at`. */
  method Write(a: array<char>, at: nat, s: string)
    requires at + |s| <= a.Length
    modifies a
    ensures a[..at + |s|] == old(a[..at]) + s
    ensures forall i :: at + |s| <= i < a.Length ==> a[i] == old(a[i])
  {
    var i := 0;
    while i < |s|
      invariant i <= |s|
      invariant a[..at + i] == old(a[..at]) + s[..i]
      invariant forall k :: at + i <= k < a.Length ==> a[k] == old(a[k])
    {
      a[at + i] := s[i];
      i := i + 1;
    }
    assert s[..i] == s;
  }

  class PrintBuffer {
    var buffer: array<char>
    var offset: nat
    var depth: nat // current nesting, for formatted printing
    ghost var written: string // the bytes before the offset
    const noalloc: bool
    const format: bool

    /** The offset is inside the buffer, except in a buffer of no bytes. */
    ghost predicate Valid()
      reads this, buffer
    {
      buffer.Length <= INT_MAX && (offset < buffer.Length || offset == buffer.Length == 0) &&
      |written| == offset && buffer[..offset] == written
    }

    /** How many bytes the buffer may come to have. */
    ghost function Limit(): int
      reads this`buffer
    {
      if noalloc then buffer.Length else INT_MAX
    }

    /** The buffer holds s as a C string. */
    ghost predicate Holds(s: string)
      reads this`buffer, buffer
    {
      |s| < buffer.Length && buffer[..|s|] == s && buffer[|s|] == NUL
    }

    /** The buffer is the same one or a new one, and never a new one when it must not grow. */
    twostate predicate KeepsBuffer()
      reads this`buffer
    {
      (buffer == old(buffer) || fresh(buffer)) && (noalloc ==> buffer == old(buffer))
    }

    constructor (size: nat, noalloc: bool, format: bool)
      requires size <= INT_MAX
      ensures Valid() && fresh(buffer) && buffer.Length == size && depth == 0 && written == ""
      ensures this.noalloc == noalloc && this.format == format
    {
      buffer := new char[size];
      offset, depth, written := 0, 0, "";
      this.noalloc := noalloc;
      this.format := format;
    }

    /** ensure: room for `needed` bytes and a terminator after the offset. */
    method Ensure(needed: nat) returns (ok: bool)
      requires Valid()
      modifies this`buffer
      ensures ok <==> offset + needed + 1 <= old(Limit())
      ensures KeepsBuffer()
      ensures ok ==> Valid() && offset + needed + 1 <= buffer.Length
      ensures ok ==> var total := offset + needed + 1;
        if total <= old(buffer.Length) then buffer == old(buffer)
        else buffer.Length == if 2 * total <= INT_MAX then 2 * total else INT_MAX
    {
      if buffer.Length > 0 && offset >= buffer.Length { return false; }
      if needed > INT_MAX { return false; }
      var total := needed + offset + 1;
      if total <= buffer.Length { return true; }
      if noalloc { return false; }
      if total > INT_MAX { return false; }
      var size := if total > INT_MAX / 2 then INT_MAX else total * 2;
      var grown := new char[size];
      var source, i := buffer, 0;
      while i < offset + 1 && i < source.Length
        invariant i <= offset + 1 && i <= source.Length && buffer == source
        invariant grown[..i] == source[..i]
      {
        grown[i] := source[i];
        i := i + 1;
      }
      assert offset <= i && grown[..i][..offset] == source[..i][..offset];
      buffer := grown;
      return true;
    }

    /** Ensure, store, terminate if asked, and move the offset if asked. */
    method Emit(needed: nat, s: string, terminate: bool, advance: bool) returns (ok: bool)
      requires Valid() && |s| <= needed
      modifies this`buffer, this`offset, this`written, buffer
      ensures ok <==> |old(written)| + needed + 1 <= old(Limit())
      ensures KeepsBuffer()
      ensures ok ==> Valid() && written == if advance then old(written) + s else old(written)
      ensures ok && terminate ==> Holds(old(written) + s)
    {
      ok := Ensure(needed);
      if !ok { return; }
      Write(buffer, offset, s);
      ghost var at := offset + |s|;
      assert buffer[..offset] == buffer[..at][..offset];
      if terminate {
        buffer[offset + |s|] := NUL;
        assert buffer[..at] == written + s;
      }
      if advance { offset, written := offset + |s|, written + s; }
    }

    /** update_offset: move to the end of the C string. */
    method UpdateOffset(ghost s: string)
      requires Valid() && Holds(s) && offset <= |s| && NUL !in s[offset..]
      modifies this`offset, this`written
      ensures Valid() && written == s
    {
      while buffer[offset] != NUL
        invariant offset <= |s| && Holds(s) && NUL !in s[offset..]
        decreases |s| - offset
      {
        assert buffer[..|s|][offset] == s[offset];
        offset := offset + 1;
      }
      written := s;
    }
  }

  // ----- strings -----

  function Extra(c: char): nat {
    if ShortEscape(c).Some? then 1 else if c as int < 32 then 5 else 0
  }

  lemma {:induction false} EscapeSnoc(s: string, i: nat)
    requires i < |s|
    ensures Escape(s[..i + 1]) == Escape(s[..i]) + EscapeChar(s[i])
  {
    if i == 0 {
      assert s[..1][1..] == [] && s[..0] == [];
    } else {
      EscapeSnoc(s[1..], i - 1);
      assert s[..i + 1][1..] == s[1..][..i] && s[..i][1..] == s[1..][..i - 1];
    }
  }

  lemma {:induction false} NoEscapes(s: string)
    requires |Escape(s)| == |s|
    ensures Escape(s) == s
  {
    if s != [] {
      EscapeGrows(s[1..]);
      NoEscapes(s[1..]);
    }
  }

  lemma {:induction false} EscapeGrows(s: string)
    ensures |s| <= |Escape(s)|
  {
    if s != [] { EscapeGrows(s[1..]); }
  }

  /** The first pass of print_string_ptr: how many bytes escaping adds. */
  method CountEscapes(s: string) returns (extra: nat)
    ensures |Escape(s)| == |s| + extra
  {
    extra := 0;
    for i := 0 to |s|
      invariant |Escape(s[..i])| == i + extra
    {
      EscapeSnoc(s, i);
      extra := extra + Extra(s[i]);
    }
    assert s[..|s|] == s;
  }

  /** print_string_ptr: the bytes the second pass writes are the ones the first has counted. */
  method PrintString(p: PrintBuffer, s: string) returns (ok: bool)
    requires p.Valid()
    modifies p`buffer, p`offset, p`written, p.buffer
    ensures ok <==> |old(p.written)| + |Quoted(s)| + 2 <= old(p.Limit())
    ensures p.KeepsBuffer()
    ensures ok ==> p.Valid() && p.written == old(p.written) && p.Holds(old(p.written) + Quoted(s))
  {
    var extra := CountEscapes(s);
    ok := p.Ensure(|s| + extra + 3);
    if ok {
      ghost var at := p.offset + |Quoted(s)|;
      WriteQuoted(p.buffer, p.offset, s, extra);
      assert p.buffer[..p.offset] == p.buffer[..at][..p.offset];
    }
  }

  method WriteQuoted(a: array<char>, at: nat, s: string, extra: nat)
    requires |Escape(s)| == |s| + extra && at + |s| + extra + 3 <= a.Length
    modifies a
    ensures a[..at + |Quoted(s)|] == old(a[..at]) + Quoted(s) && a[at + |Quoted(s)|] == NUL
  {
    hide Escape;
    ghost var base, escaped := a[..at], Escape(s);
    Write(a, at, [QUOTE]);
    WriteBody(a, at + 1, s, extra);
    ghost var body := at + 1 + |escaped|;
    assert a[..body] == base + [QUOTE] + escaped;
    Write(a, at + |s| + extra + 1, [QUOTE]);
    Write(a, at + |s| + extra + 2, [NUL]);
    assert a[..body + 1] == a[..body + 2][..body + 1];
    Surround(base, [QUOTE], escaped, [QUOTE]);
  }

  /** Between the quotes: a plain copy when there is nothing to escape. */
  method WriteBody(a: array<char>, at: nat, s: string, extra: nat)
    requires |Escape(s)| == |s| + extra && at + |Escape(s)| <= a.Length
    modifies a
    ensures a[..at + |Escape(s)|] == old(a[..at]) + Escape(s)
  {
    if extra == 0 {
      NoEscapes(s);
      Write(a, at, s);
    } else {
      WriteEscaped(a, at, s);
    }
  }

  /** The copying loop: one, two or six bytes for each byte of the string. */
  method WriteEscaped(a: array<char>, at: nat, s: string)
    requires at + |Escape(s)| <= a.Length
    modifies a
    ensures a[..at + |Escape(s)|] == old(a[..at]) + Escape(s)
  {
    hide Escape;
    hide EscapeChar;
    ghost var base := a[..at];
    var pos := at;
    EscapeNothing(s);
    for i := 0 to |s|
      invariant pos == at + |Escape(s[..i])| && pos <= at + |Escape(s)|
      invariant a[..pos] == base + Escape(s[..i])
    {
      ghost var done := Escape(s[..i]);
      EscapeSnoc(s, i);
      EscapePrefix(s, i + 1);
      Write(a, pos, EscapeChar(s[i]));
      pos := pos + |EscapeChar(s[i])|;
      assert base + done + EscapeChar(s[i]) == base + (done + EscapeChar(s[i]));
    }
    assert s[..|s|] == s;
  }

  lemma EscapeNothing(s: string)
    ensures s[..0] == "" && Escape("") == ""
  {
  }

  lemma {:induction false} EscapePrefix(s: string, i: nat)
    requires i <= |s|
    ensures |Escape(s[..i])| <= |Escape(s)|
    decreases |s| - i
  {
    if i < |s| {
      EscapeSnoc(s, i);
      EscapePrefix(s, i + 1);
    } else {
      assert s[..i] == s;
    }
  }

  // ----- values -----

  /** print_value. */
  method PrintValue(p: PrintBuffer, j: Json) returns (ok: bool)
    requires p.Valid()
    modifies p, p.buffer
    ensures ok <==> |old(p.written)| + |Text(j, p.format, old(p.depth))| + 2 <= old(p.Limit())
    ensures p.KeepsBuffer()
    ensures ok ==> p.Valid() && p.depth == old(p.depth)
    ensures ok ==> p.Holds(old(p.written) + Text(j, p.format, old(p.depth)))
    ensures ok ==> old(p.written) <= p.written <= old(p.written) + Text(j, p.format, old(p.depth))
    decreases j, 1
  {
    match j {
      case Null => ok := p.Emit(5, "null", true, false);
      case False => ok := p.Emit(6, "false", true, false);
      case True => ok := p.Emit(5, "true", true, false);
      case Number(n) => ok := p.Emit(|IntText(n)| + 1, IntText(n), true, true);
      case String(s) => ok := PrintString(p, s);
      case Array(_) => ok := PrintArray(p, j.items);
      case Object(_) => ok := PrintObject(p, j.members);
    }
  }

  /** A value inside an array or object: print it and move behind it. */
  method PrintChild(p: PrintBuffer, j: Json) returns (ok: bool)
    requires p.Valid()
    modifies p, p.buffer
    ensures ok <==> |old(p.written)| + |Text(j, p.format, old(p.depth))| + 2 <= old(p.Limit())
    ensures p.KeepsBuffer()
    ensures ok ==> p.Valid() && p.depth == old(p.depth)
    ensures ok ==> p.written == old(p.written) + Text(j, p.format, old(p.depth))
    decreases j, 2
  {
    ghost var base, text := p.written, Text(j, p.format, p.depth);
    TextHasNoNul(j, p.format, p.depth);
    ok := PrintValue(p, j);
    if ok {
      assert (base + text)[p.offset..] == text[p.offset - |base|..];
      p.UpdateOffset(base + text);
    }
  }

  /** A key: print it and move behind it. */
  method PrintKey(p: PrintBuffer, key: string) returns (ok: bool)
    requires p.Valid()
    modifies p`buffer, p`offset, p`written, p.buffer
    ensures ok <==> |old(p.written)| + |Quoted(key)| + 2 <= old(p.Limit())
    ensures p.KeepsBuffer()
    ensures ok ==> p.Valid()
    ensures ok ==> p.written == old(p.written) + Quoted(key)
  {
    ghost var base := p.written;
    ok := PrintString(p, key);
    if ok {
      assert (base + Quoted(key))[p.offset..] == Quoted(key);
      p.UpdateOffset(base + Quoted(key));
    }
  }

  method PrintArray(p: PrintBuffer, items: seq<Json>) returns (ok: bool)
    requires p.Valid()
    modifies p, p.buffer
    ensures ok <==> |old(p.written)| + |"[" + ItemsText(items, p.format, old(p.depth) + 1) + "]"| + 2 <= old(p.Limit())
    ensures p.KeepsBuffer()
    ensures ok ==> p.Valid() && p.depth == old(p.depth)
    ensures ok ==> p.Holds(old(p.written) + ("[" + ItemsText(items, p.format, old(p.depth) + 1) + "]"))
    ensures ok ==> old(p.written) <= p.written <= old(p.written) + ("[" + ItemsText(items, p.format, old(p.depth) + 1) + "]")
    decreases items, 1
  {
    ghost var base, inner := p.written, ItemsText(items, p.format, p.depth + 1);
    ok := p.Emit(1, "[", false, true);
    if !ok { return; }
    p.depth := p.depth + 1;
    ok := PrintItems(p, items);
    if !ok { return; }
    ok := p.Emit(2, "]", true, false);
    if !ok { return; }
    p.depth := p.depth - 1;
    Surround(base, "[", inner, "]");
  }

  /** The loop over the elements. */
  method PrintItems(p: PrintBuffer, items: seq<Json>) returns (ok: bool)
    requires p.Valid()
    modifies p, p.buffer
    ensures !ok ==> |old(p.written)| + |ItemsText(items, p.format, old(p.depth))| + 2 > old(p.Limit())
    ensures p.KeepsBuffer()
    ensures ok ==> p.Valid() && p.depth == old(p.depth)
    ensures ok ==> p.written == old(p.written) + ItemsText(items, p.format, old(p.depth))
    decreases items, 0
  {
    ghost var base, d := p.written, p.depth;
    ghost var total := base + ItemsText(items, p.format, d);
    var i := 0;
    assert items[0..] == items;
    while i < |items|
      invariant i <= |items| && p.Valid() && p.depth == d && p.KeepsBuffer()
      invariant p.written + ItemsText(items[i..], p.format, d) == total
    {
      ghost var done, rest := p.written, ItemsText(items[i + 1..], p.format, d);
      ghost var step := Text(items[i], p.format, d) + Separator(i + 1 < |items|, p.format);
      assert items[i..][1..] == items[i + 1..];
      Append(done, step, rest);
      ok := PrintItem(p, items[i], i + 1 < |items|);
      if !ok { return; }
      i := i + 1;
    }
    assert items[i..] == [];
    assert p.written + "" == total;
    ok := true;
  }

  method PrintItem(p: PrintBuffer, item: Json, more: bool) returns (ok: bool)
    requires p.Valid()
    modifies p, p.buffer
    ensures ok <==> |old(p.written)| + |Text(item, p.format, old(p.depth)) + Separator(more, p.format)| + 2 <= old(p.Limit())
    ensures p.KeepsBuffer()
    ensures ok ==> p.Valid() && p.depth == old(p.depth)
    ensures ok ==> p.written == old(p.written) + (Text(item, p.format, old(p.depth)) + Separator(more, p.format))
    decreases item, 3
  {
    ok := PrintChild(p, item);
    if ok && more {
      var length := if p.format then 2 else 1;
      ok := p.Emit(length + 1, if p.format then ", " else ",", true, true);
    }
  }

  method PrintObject(p: PrintBuffer, ms: seq<Member>) returns (ok: bool)
    requires p.Valid()
    modifies p, p.buffer
    ensures ok <==> |old(p.written)| + |ObjectText(ms, p.format, old(p.depth))| + 2 <= old(p.Limit())
    ensures p.KeepsBuffer()
    ensures ok ==> p.Valid() && p.depth == old(p.depth)
    ensures ok ==> p.Holds(old(p.written) + ObjectText(ms, p.format, old(p.depth)))
    ensures ok ==> old(p.written) <= p.written <= old(p.written) + ObjectText(ms, p.format, old(p.depth))
    decreases ms, 1
  {
    hide MembersText;
    hide ObjectText;
    hide Opening;
    hide Closing;
    ghost var base, d := p.written, p.depth;
    ObjectParts(base, ms, p.format, d);
    ok := p.Emit(|Opening(p.format)| + 1, Opening(p.format), false, true);
    if !ok { return; }
    p.depth := p.depth + 1;
    ok := PrintMembers(p, ms);
    if !ok { return; }
    ok := p.Emit(if p.format then p.depth + 1 else 2, Closing(p.format, p.depth - 1), true, false);
    if !ok { return; }
    p.depth := p.depth - 1;
  }

  /** An object is printed in three parts. */
  lemma ObjectParts(base: string, ms: seq<Member>, format: bool, d: nat)
    ensures var (opening, inner, closing, all) := (Opening(format), MembersText(ms, format, d + 1), Closing(format, d), ObjectText(ms, format, d));
      |all| == |opening| + |inner| + |closing| &&
      |opening| == (if format then 2 else 1) && |closing| == (if format then d + 1 else 1) &&
      base + opening + inner + closing == base + all && base <= base + opening + inner <= base + all
  {
    Surround(base, Opening(format), MembersText(ms, format, d + 1), Closing(format, d));
  }

  lemma Surround(base: string, a: string, b: string, c: string)
    ensures base + a + b + c == base + (a + b + c)
    ensures base <= base + a + b <= base + (a + b + c)
  {
    assert base + a + b + c == base + (a + b + c);
  }

  /** The loop over the members. */
  method PrintMembers(p: PrintBuffer, ms: seq<Member>) returns (ok: bool)
    requires p.Valid()
    modifies p, p.buffer
    ensures !ok ==> |old(p.written)| + |MembersText(ms, p.format, old(p.depth))| + 2 > old(p.Limit())
    ensures p.KeepsBuffer()
    ensures ok ==> p.Valid() && p.depth == old(p.depth)
    ensures ok ==> p.written == old(p.written) + MembersText(ms, p.format, old(p.depth))
    decreases ms, 0
  {
    ghost var base, d := p.written, p.depth;
    ghost var total := base + MembersText(ms, p.format, d);
    hide MembersText;
    hide MemberText;
    var i := 0;
    assert ms[0..] == ms;
    while i < |ms|
      invariant i <= |ms| && p.Valid() && p.depth == d && p.KeepsBuffer()
      invariant p.written + MembersText(ms[i..], p.format, d) == total
    {
      ghost var done, rest := p.written, MembersText(ms[i + 1..], p.format, d);
      ghost var step := MemberText(ms[i], p.format, d, i + 1 < |ms|);
      MembersFrom(ms, i, p.format, d);
      Append(done, step, rest);
      ok := PrintMember(p, ms[i], i + 1 < |ms|);
      if !ok { return; }
      i := i + 1;
    }
    MembersFrom(ms, i, p.format, d);
    assert p.written + "" == total;
    ok := true;
  }

  lemma MembersFrom(ms: seq<Member>, i: nat, format: bool, depth: nat)
    requires i <= |ms|
    ensures i == |ms| ==> MembersText(ms[i..], format, depth) == ""
    ensures i < |ms| ==>
      MembersText(ms[i..], format, depth) == MemberText(ms[i], format, depth, i + 1 < |ms|) + MembersText(ms[i + 1..], format, depth)
  {
    if i < |ms| { assert ms[i..][1..] == ms[i + 1..]; }
  }

  /** The indentation, the key and the colon. */
  method PrintHead(p: PrintBuffer, key: string) returns (ok: bool)
    requires p.Valid()
    modifies p`buffer, p`offset, p`written, p.buffer
    ensures !ok ==> |old(p.written)| + |MemberHead(key, p.format, p.depth)| + 1 > old(p.Limit())
    ensures p.KeepsBuffer()
    ensures ok ==> p.Valid()
    ensures ok ==> p.written == old(p.written) + MemberHead(key, p.format, p.depth)
  {
    ghost var base, tabs := p.written, When(p.format, Tabs(p.depth));
    if p.format {
      ok := p.Emit(p.depth, Tabs(p.depth), false, true);
      if !ok { return; }
    }
    assert p.written == base + tabs;
    ok := PrintKey(p, key);
    if !ok { return; }
    ok := p.Emit(|Colon(p.format)|, Colon(p.format), false, true);
    Surround(base, tabs, Quoted(key), Colon(p.format));
  }

  method PrintMember(p: PrintBuffer, m: Member, more: bool) returns (ok: bool)
    requires p.Valid()
    modifies p, p.buffer
    ensures !ok ==> |old(p.written)| + |MemberText(m, p.format, old(p.depth), more)| + 2 > old(p.Limit())
    ensures p.KeepsBuffer()
    ensures ok ==> p.Valid() && p.depth == old(p.depth)
    ensures ok ==> p.written == old(p.written) + MemberText(m, p.format, old(p.depth), more)
    decreases m, 3
  {
    ghost var base, head, text := p.written, MemberHead(m.key, p.format, p.depth), Text(m.val, p.format, p.depth);
    ok := PrintHead(p, m.key);
    if !ok { return; }
    ok := PrintChild(p, m.val);
    if !ok { return; }
    var tail := MemberTail(more, p.format);
    ok := p.Emit(|tail| + 1, tail, true, true);
    Surround(base, head, text, tail);
  }

  // ----- the entry points -----

  /** print: a growing buffer of 256 bytes to start with, cut to size at the end. */
  method Print(j: Json, format: bool) returns (printed: Option<string>)
    ensures printed == if |Text(j, format, 0)| + 2 <= INT_MAX then Some(Text(j, format, 0)) else None
  {
    var p := new PrintBuffer(256, false, format);
    var ok := PrintChild(p, j);
    if !ok { return None; }
    assert "" + Text(j, format, 0) == Text(j, format, 0);
    printed := Some(p.buffer[..p.offset]);
  }

  /**
    cJSON_PrintPreallocated: it succeeds exactly when the text, its terminator and one
    more byte fit, so the five spare bytes asked of callers are always enough.
   */
  method PrintPreallocated(j: Json, length: nat, format: bool) returns (ok: bool, buffer: array<char>)
    requires length <= INT_MAX
    ensures ok <==> |Text(j, format, 0)| + 2 <= length
    ensures buffer.Length == length && fresh(buffer)
    ensures ok ==> Truncate(buffer[..]) == Text(j, format, 0)
  {
    var p := new PrintBuffer(length, true, format);
    ok := PrintValue(p, j);
    buffer := p.buffer;
    if ok {
      ghost var text := Text(j, format, 0);
      TextHasNoNul(j, format, 0);
      assert "" + text == text;
      assert buffer[..] == text + [NUL] + buffer[|text| + 1..];
      TruncateCString(text, buffer[|text| + 1..]);
    }
  }
}
