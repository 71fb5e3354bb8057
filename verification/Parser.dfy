/**
  The parser over a buffer whose offset and nesting depth are advanced in place.
  It is total, stays inside the buffer, never nests deeper than its limit, restores
  the depth on success, and reads exactly what the parsing functions say.
 */
module Parser {
  import opened CStrings
  import opened Decimals
  import opened JsonValues
  import opened JsonText
  import opened ParseSpec

  lemma PrependLaws<T>(xs: seq<T>, ys: seq<T>, r: Option<(seq<T>, nat)>)
    ensures Prepend(xs, Prepend(ys, r)) == Prepend(xs + ys, r)
    ensures Prepend([], r) == r
  {
    if r.Some? {
      assert xs + (ys + r.value.0) == xs + ys + r.value.0;
      assert [] + r.value.0 == r.value.0;
    }
  }

  lemma PrependLast<T>(xs: seq<T>, x: T, end: nat)
    ensures Prepend(xs, Some(([x], end))) == Some((xs + [x], end))
  {
  }

  /**
    What the first pass has counted for the bytes from p on, when i is where the
    first pass has its next boundary at p or behind it.
   */
  function Room(c: string, p: nat, i: nat, end: nat): int
    requires end <= |c|
  {
    end + 1 - p - Escapes(c, i, end)
  }

  /** The next boundary of the first pass, and how many escapes are before it. */
  lemma {:induction false} NextBoundary(c: string, i: nat, q: nat, end: nat) returns (i': nat)
    requires i <= q + 1 && end <= |c|
    ensures q <= i' <= q + 1 && (i == q + 1 ==> i' == i)
    ensures Escapes(c, i, end) <= Escapes(c, i', end) + (q + 1 - i) / 2
    decreases q + 1 - i
  {
    if i >= q {
      i' := i;
    } else if i >= end {
      i' := q;
    } else if c[i] == BACKSLASH {
      i' := NextBoundary(c, i + 2, q, end);
    } else {
      i' := NextBoundary(c, i + 1, q, end);
    }
  }

  lemma {:induction false} RoomLeft(c: string, p: nat, i: nat, end: nat)
    requires p <= i <= p + 1 && p <= end + 1 && end <= |c|
    ensures 0 <= Room(c, p, i, end)
    decreases if i < end then end - i else 0
  {
    if i <= end {
      var i' := NextBoundary(c, i, end, end);
    }
  }

  /** No turn of the second pass writes more than the first pass has counted for the bytes it reads. */
  lemma RoomStep(c: string, p: nat, i: nat, end: nat) returns (i': nat)
    requires p < end < |c| && p <= i <= p + 1 && UnescapeOne(c, p, end).Some?
    ensures var (bytes, length) := UnescapeOne(c, p, end).value;
      p + length <= i' <= p + length + 1 && p + length <= end + 1 &&
      Room(c, p + length, i', end) + |bytes| <= Room(c, p, i, end) && 0 <= Room(c, p + length, i', end)
  {
    var (bytes, length) := UnescapeOne(c, p, end).value;
    if length == 1 {
      i' := p + 1;
    } else {
      i' := NextBoundary(c, i, p + length, end);
    }
    RoomLeft(c, p + length, i', end);
  }

  lemma {:induction false} TruncateAt(s: string, n: nat)
    requires n < |s| && s[n] == NUL
    ensures Truncate(s) == Truncate(s[..n])
  {
    if n > 0 && s[0] != NUL {
      TruncateAt(s[1..], n - 1);
      assert s[1..][..n - 1] == s[..n][1..];
    }
  }

  lemma JoinedLaws(s: string, t: string, r: Option<string>)
    ensures Joined(s, Joined(t, r)) == Joined(s + t, r)
    ensures Joined("", r) == r
  {
    if r.Some? {
      assert s + (t + r.value) == s + t + r.value;
      assert "" + r.value == r.value;
    }
  }

  class ParseBuffer {
    const content: string
    var offset: nat
    var depth: nat

    predicate Valid()
      reads this
    {
      offset <= |content| && depth <= NESTING_LIMIT
    }

    constructor (content: string)
      ensures Valid() && this.content == content && offset == 0 && depth == 0
    {
      this.content := content;
      offset, depth := 0, 0;
    }

    predicate At(c: char)
      reads this
    {
      offset < |content| && content[offset] == c
    }

    method SkipSpace()
      requires Valid()
      modifies this`offset
      ensures Valid() && offset == SkipWhitespace(content, old(offset))
    {
      if offset >= |content| { return; }
      while offset < |content| && content[offset] as int <= 32
        invariant offset <= |content|
        invariant SkipSpaces(content, offset) == SkipSpaces(content, old(offset))
      {
        offset := offset + 1;
      }
      if offset == |content| { offset := offset - 1; }
    }

    /** parse_string; a failure leaves the offset somewhere inside the literal. */
    method String() returns (r: Option<string>)
      requires Valid() && offset < |content|
      modifies this`offset
      ensures Valid()
      ensures (if r.Some? then Some((r.value, offset)) else None) == ParseString(content, old(offset))
    {
      hide Unescape;
      hide ScanString;
      hide Truncate;
      if content[offset] != QUOTE { return None; }
      var end, skipped := ClosingQuote(offset + 1);
      if end.None? { return None; }
      RoomLeft(content, offset + 1, offset + 1, end.value);
      var allocation := end.value - offset - skipped;
      var output := new char[allocation + 1];
      var written := Literal(offset + 1, end.value, output);
      if written.None? { return None; }
      output[written.value] := NUL;
      TruncateAt(output[..], written.value);
      offset := end.value + 1;
      return Some(Truncate(output[..]));
    }

    /** The first pass of parse_string, which also counts the bytes to be skipped. */
    method ClosingQuote(start: nat) returns (r: Option<nat>, skipped: nat)
      ensures r == ScanString(content, start)
      ensures r.Some? ==> skipped == Escapes(content, start, r.value)
    {
      var end := start;
      ghost var goal := ScanString(content, start);
      skipped := 0;
      while end < |content| && content[end] != QUOTE
        invariant ScanString(content, end) == goal
        invariant goal.Some? ==> skipped + Escapes(content, end, goal.value) == Escapes(content, start, goal.value)
        decreases |content| - end
      {
        if content[end] == BACKSLASH {
          if end + 1 >= |content| { return None, skipped; }
          skipped := skipped + 1;
          end := end + 1;
        }
        end := end + 1;
      }
      return if end >= |content| then None else Some(end), skipped;
    }

    /**
      The second pass of parse_string. It never writes more bytes than the first
      pass has counted, so one more is left for the terminator.
     */
    method Literal(start: nat, end: nat, output: array<char>) returns (written: Option<nat>)
      requires start <= end < |content| && output.Length == Room(content, start, start, end) + 1
      modifies output
      ensures written.Some? ==> written.value < output.Length && Unescape(content, start, end) == Some(output[..written.value])
      ensures written.None? ==> Unescape(content, start, end).None?
    {
      hide Room;
      hide UnescapeOne;
      var p, w := start, 0;
      ghost var i: nat := start;
      ghost var goal := Unescape(content, start, end);
      JoinedLaws("", "", goal);
      RoomLeft(content, start, start, end);
      assert output[..w] == "";
      while p < end
        invariant p <= i <= p + 1 && p <= end + 1 && 0 <= w
        invariant w + Room(content, p, i, end) < output.Length && 0 <= Room(content, p, i, end)
        invariant goal == Joined(output[..w], Unescape(content, p, end))
        decreases if p < end then end - p else 0
      {
        var step := UnescapeOne(content, p, end);
        if step.None? { return None; }
        i := RoomStep(content, p, i, end);
        JoinedLaws(output[..w], step.value.0, Unescape(content, p + step.value.1, end));
        WriteBytes(output, w, step.value.0);
        w, p := w + |step.value.0|, p + step.value.1;
      }
      assert output[..w] + "" == output[..w];
      return Some(w);
    }

    /** The bytes written through output_pointer in one turn. */
    method WriteBytes(output: array<char>, w: nat, bytes: string)
      requires w + |bytes| <= output.Length
      modifies output
      ensures output[..w + |bytes|] == old(output[..w]) + bytes
    {
      for k := 0 to |bytes|
        invariant output[..w + k] == old(output[..w]) + bytes[..k]
      {
        output[w + k] := bytes[k];
        assert bytes[..k + 1] == bytes[..k] + [bytes[k]];
        assert output[..w + k + 1] == output[..w + k] + [bytes[k]];
      }
      assert bytes[..|bytes|] == bytes;
    }

    /** The loop that copies up to 63 bytes of a number. */
    method CopyNumber() returns (i: nat)
      requires Valid()
      ensures i == NumberRun(content, offset, 63) && offset + i <= |content|
    {
      i := 0;
      while i < 63 && offset + i < |content| && IsNumberChar(content[offset + i])
        invariant i <= 63 && offset + i <= |content|
        invariant NumberRun(content, offset, 63) == i + NumberRun(content, offset + i, 63 - i)
      {
        i := i + 1;
      }
    }

    method Number() returns (r: Option<Json>)
      requires Valid() && offset < |content|
      modifies this`offset
      ensures Valid()
      ensures (if r.Some? then Some((r.value, offset)) else None) == ParseNumber(content, old(offset))
    {
      var i := CopyNumber();
      var number := Strtod(content[offset..offset + i]);
      if number.None? { return None; }
      offset := offset + number.value.1;
      return Some(Json.Number(Saturate(number.value.0)));
    }

    /** What a parsing method promises of its result, whatever kind of value it reads. */
    ghost predicate Agrees<T>(r: Option<T>, spec: Option<(T, nat)>, before: nat)
      reads this
    {
      Valid() && (r.Some? ==> spec == Some((r.value, offset)) && depth == before) && (r.None? ==> spec.None?)
    }

    method Value() returns (r: Option<Json>)
      requires Valid()
      modifies this
      ensures Agrees(r, ParseValue(content, old(offset), old(depth)), old(depth))
      decreases |content| - offset, 2
    {
      if Reads(content, offset, "null") {
        offset := offset + 4;
        return Some(Null);
      }
      if Reads(content, offset, "false") {
        offset := offset + 5;
        return Some(False);
      }
      if Reads(content, offset, "true") {
        offset := offset + 4;
        return Some(True);
      }
      if offset >= |content| { return None; }
      if content[offset] == QUOTE {
        var s := String();
        return if s.None? then None else Some(Json.String(s.value));
      }
      if content[offset] == '-' || IsDigit(content[offset]) {
        r := Number();
        return;
      }
      if content[offset] == '[' {
        r := Array();
        return;
      }
      if content[offset] == '{' {
        r := Object();
        return;
      }
      return None;
    }

    method Array() returns (r: Option<Json>)
      requires Valid() && At('[')
      modifies this
      ensures Agrees(r, ParseArray(content, old(offset), old(depth)), old(depth))
      decreases |content| - offset, 1
    {
      hide ParseItems;
      hide SkipWhitespace;
      if depth >= NESTING_LIMIT { return None; }
      depth := depth + 1;
      offset := offset + 1;
      SkipSpace();
      if At(']') {
        depth, offset := depth - 1, offset + 1;
        return Some(Json.Array([]));
      }
      offset := offset - 1;
      if offset + 1 == |content| { return None; }
      var items := Items();
      if items.None? { return None; }
      depth := depth - 1;
      return Some(Json.Array(items.value));
    }

    /** The loop over the elements, up to and including the closing bracket. */
    method Items() returns (r: Option<seq<Json>>)
      requires Valid() && offset < |content|
      modifies this
      ensures Agrees(r, ParseItems(content, old(offset), old(depth)), old(depth))
      decreases |content| - offset, 0, 2
    {
      ghost var whole := ParseItems(content, offset, depth);
      var items: seq<Json> := [];
      PrependLaws(items, items, whole);
      var more := true;
      while more
        invariant Valid() && depth == old(depth) && old(offset) <= offset && (more ==> offset < |content|)
        invariant more ==> whole == Prepend(items, ParseItems(content, offset, depth))
        invariant !more ==> whole.Some? == At(']')
        invariant !more && At(']') ==> whole.value.0 == items && whole.value.1 == offset + 1
        decreases |content| - offset, more
      {
        ghost var here := ParseItems(content, offset, depth);
        var next;
        next, more := NextItem();
        if next.None? { return None; }
        assert whole == Prepend(items, here);
        if more { PrependLaws(items, [next.value], ParseItems(content, offset, depth)); }
        PrependLast(items, next.value, offset + 1);
        items := items + [next.value];
      }
      if !At(']') { return None; }
      offset := offset + 1;
      return Some(items);
    }

    /** One turn of the loop; `more` when a comma follows. */
    method NextItem() returns (r: Option<Json>, more: bool)
      requires Valid() && offset < |content|
      modifies this
      ensures Valid()
      ensures r.None? ==> ParseItems(content, old(offset), old(depth)).None?
      ensures r.Some? ==> depth == old(depth) && old(offset) < offset && more == At(',')
      ensures r.Some? && more ==> ParseItems(content, old(offset), old(depth)) == Prepend([r.value], ParseItems(content, offset, depth))
      ensures r.Some? && !more && At(']') ==> ParseItems(content, old(offset), old(depth)) == Some(([r.value], offset + 1))
      ensures r.Some? && !more && !At(']') ==> ParseItems(content, old(offset), old(depth)).None?
      decreases |content| - offset, 0, 0
    {
      offset := offset + 1;
      SkipSpace();
      r := Value();
      more := false;
      if r.None? { return; }
      SkipSpace();
      more := At(',');
    }

    method Object() returns (r: Option<Json>)
      requires Valid() && At('{')
      modifies this
      ensures Agrees(r, ParseObject(content, old(offset), old(depth)), old(depth))
      decreases |content| - offset, 1
    {
      if depth >= NESTING_LIMIT { return None; }
      depth := depth + 1;
      offset := offset + 1;
      SkipSpace();
      if At('}') {
        depth, offset := depth - 1, offset + 1;
        return Some(Json.Object([]));
      }
      offset := offset - 1;
      if offset + 1 == |content| { return None; }
      var ms := Members();
      if ms.None? { return None; }
      depth := depth - 1;
      return Some(Json.Object(ms.value));
    }

    /** The loop over the members, up to and including the closing brace. */
    method Members() returns (r: Option<seq<Member>>)
      requires Valid() && offset < |content|
      modifies this
      ensures Agrees(r, ParseMembers(content, old(offset), old(depth)), old(depth))
      decreases |content| - offset, 0, 2
    {
      ghost var whole := ParseMembers(content, offset, depth);
      var members: seq<Member> := [];
      PrependLaws(members, members, whole);
      var more := true;
      while more
        invariant Valid() && depth == old(depth) && old(offset) <= offset && (more ==> offset < |content|)
        invariant more ==> whole == Prepend(members, ParseMembers(content, offset, depth))
        invariant !more ==> whole.Some? == At('}')
        invariant !more && At('}') ==> whole.value.0 == members && whole.value.1 == offset + 1
        decreases |content| - offset, more
      {
        ghost var here := ParseMembers(content, offset, depth);
        var next;
        next, more := NextMember();
        if next.None? { return None; }
        assert whole == Prepend(members, here);
        if more { PrependLaws(members, [next.value], ParseMembers(content, offset, depth)); }
        PrependLast(members, next.value, offset + 1);
        members := members + [next.value];
      }
      if !At('}') { return None; }
      offset := offset + 1;
      return Some(members);
    }

    /** One turn of the loop; `more` when a comma follows. */
    method NextMember() returns (r: Option<Member>, more: bool)
      requires Valid() && offset < |content|
      modifies this
      ensures Valid()
      ensures r.None? ==> ParseMembers(content, old(offset), old(depth)).None?
      ensures r.Some? ==> depth == old(depth) && old(offset) < offset && more == At(',')
      ensures r.Some? && more ==>
        ParseMembers(content, old(offset), old(depth)) == Prepend([r.value], ParseMembers(content, offset, depth))
      ensures r.Some? && !more && At('}') ==> ParseMembers(content, old(offset), old(depth)) == Some(([r.value], offset + 1))
      ensures r.Some? && !more && !At('}') ==> ParseMembers(content, old(offset), old(depth)).None?
      decreases |content| - offset, 0, 1
    {
      r := OneMember();
      more := false;
      if r.None? { return; }
      SkipSpace();
      more := At(',');
    }

    method OneMember() returns (r: Option<Member>)
      requires Valid() && offset < |content|
      modifies this
      ensures Agrees(r, ParseMember(content, old(offset), old(depth)), old(depth))
      decreases |content| - offset, 0, 0
    {
      var key := Key();
      if key.None? { return None; }
      SkipSpace();
      var v := Value();
      return if v.None? then None else Some(Member(key.value, v.value));
    }

    /** The name of a member and its colon. */
    method Key() returns (r: Option<string>)
      requires Valid() && offset < |content|
      modifies this`offset
      ensures Agrees(r, ParseKey(content, old(offset)), depth)
    {
      if offset + 1 >= |content| { return None; }
      offset := offset + 1;
      SkipSpace();
      r := String();
      if r.None? { return None; }
      SkipSpace();
      if !At(':') { return None; }
      offset := offset + 1;
    }
  }

  /** cJSON_ParseWithLengthOpts: a fresh buffer, the byte order mark, one value, the terminator. */
  method Parse(bytes: string, requireTerminator: bool) returns (r: Option<Json>)
    ensures r == ParseBytes(bytes, requireTerminator)
  {
    if bytes == [] { return None; }
    var b := new ParseBuffer(bytes);
    if |bytes| > 4 && Reads(bytes, 0, [0xEF as char, 0xBB as char, 0xBF as char]) {
      b.offset := 3;
    }
    b.SkipSpace();
    var v := b.Value();
    if v.None? { return None; }
    if requireTerminator {
      b.SkipSpace();
      if !b.At(NUL) { return None; }
    }
    return v;
  }
}
