/**
  JSON Pointer (RFC 6901): the text of a path, evaluating it, and finding it.
  A node of a tree is identified by its position, the child indices from the root.
 */
module Pointers {
  import opened CStrings
  import opened Decimals
  import opened JsonValues

  const SIZE_LIMIT: nat := 0x1_0000_0000_0000_0000

  // ----- positions -----

  function Children(j: Json): (r: seq<Json>)
    ensures forall i :: 0 <= i < |r| ==> Depth(r[i]) < Depth(j)
  {
    match j
    case Array(items) => items
    case Object(ms) => seq(|ms|, i requires 0 <= i < |ms| => ms[i].val)
    case _ => []
  }

  predicate IsPosition(j: Json, pos: seq<nat>)
    decreases |pos|
  {
    pos != [] ==> pos[0] < |Children(j)| && IsPosition(Children(j)[pos[0]], pos[1..])
  }

  function At(j: Json, pos: seq<nat>): Json
    requires IsPosition(j, pos)
    decreases |pos|
  {
    if pos == [] then j else At(Children(j)[pos[0]], pos[1..])
  }

  // ----- text of a path -----

  function EncodeChar(c: char): string {
    if c == '/' then "~1" else if c == '~' then "~0" else [c]
  }

  /** encode_string_as_pointer. */
  function Encode(s: string): (r: string)
    ensures '/' !in r && |s| <= |r|
  {
    if s == [] then [] else EncodeChar(s[0]) + Encode(s[1..])
  }

  /** The loop of encode_string_as_pointer; the bytes written number pointer_encoded_length. */
  method EncodeStringAsPointer(source: string) returns (destination: string, length: nat)
    ensures destination == Encode(source) && length == |destination|
  {
    destination, length := [], 0;
    for i := 0 to |source|
      invariant destination + Encode(source[i..]) == Encode(source)
      invariant length == |destination|
    {
      assert source[i..][1..] == source[i + 1..];
      assert destination + (EncodeChar(source[i]) + Encode(source[i + 1..])) ==
        (destination + EncodeChar(source[i])) + Encode(source[i + 1..]);
      destination := destination + EncodeChar(source[i]);
      length := length + if source[i] == '~' || source[i] == '/' then 2 else 1;
    }
    assert source[|source|..] == [];
  }

  /** The token that names child i of a node. */
  function Token(j: Json, i: nat): (r: string)
    requires i < |Children(j)|
    ensures '/' !in r
  {
    match j
    case Object(ms) => Encode(ms[i].key)
    case _ => Decimal(i)
  }

  function PathText(j: Json, pos: seq<nat>): string
    requires IsPosition(j, pos)
    decreases |pos|
  {
    if pos == [] then "" else "/" + Token(j, pos[0]) + PathText(Children(j)[pos[0]], pos[1..])
  }

  // ----- finding a pointer -----

  /** cJSONUtils_FindPointerFromObjectTo: depth-first search for the node at `target`. */
  function FindPointer(j: Json, here: seq<nat>, target: seq<nat>): Option<string>
    decreases Depth(j), 1, 0
  {
    if here == target then Some("") else FindAmong(j, 0, here, target)
  }

  function FindAmong(j: Json, i: nat, here: seq<nat>, target: seq<nat>): Option<string>
    requires i <= |Children(j)|
    decreases Depth(j), 0, |Children(j)| - i
  {
    if i == |Children(j)| then None else
      var found := FindPointer(Children(j)[i], here + [i], target);
      if found.Some? then Some("/" + Token(j, i) + found.value) else FindAmong(j, i + 1, here, target)
  }

  method FindPointerFromObjectTo(root: Json, here: seq<nat>, target: seq<nat>) returns (r: Option<string>)
    ensures r == FindPointer(root, here, target)
    decreases Depth(root)
  {
    if here == target { return Some(""); }
    var i := 0;
    while i < |Children(root)|
      invariant i <= |Children(root)|
      invariant FindAmong(root, 0, here, target) == FindAmong(root, i, here, target)
    {
      var found := FindPointerFromObjectTo(Children(root)[i], here + [i], target);
      if found.Some? { return Some("/" + Token(root, i) + found.value); }
      i := i + 1;
    }
    return None;
  }

  /** The search answers for exactly the nodes below `here`, with their path. */
  lemma {:induction false} FindPointerFinds(j: Json, here: seq<nat>, target: seq<nat>)
    ensures FindPointer(j, here, target) ==
      if here <= target && IsPosition(j, target[|here|..]) then Some(PathText(j, target[|here|..])) else None
    decreases Depth(j), 1, 0
  {
    if here != target { FindAmongFinds(j, 0, here, target); }
  }

  lemma {:induction false} FindAmongFinds(j: Json, i: nat, here: seq<nat>, target: seq<nat>)
    requires i <= |Children(j)| && here != target
    requires here < target ==> i <= target[|here|] || target[|here|] >= |Children(j)| || !IsPosition(j, target[|here|..])
    ensures FindAmong(j, i, here, target) ==
      if here <= target && IsPosition(j, target[|here|..]) then Some(PathText(j, target[|here|..])) else None
    decreases Depth(j), 0, |Children(j)| - i
  {
    hide FindPointer;
    hide Token;
    if i < |Children(j)| {
      FindPointerFinds(Children(j)[i], here + [i], target);
      if here < target {
        assert target[|here|..][1..] == target[|here| + 1..];
        assert here + [i] <= target <==> target[|here|] == i;
      }
      if here + [i] <= target && IsPosition(j, target[|here|..]) {
      } else {
        FindAmongFinds(j, i + 1, here, target);
      }
    }
  }

  // ----- evaluating a pointer -----

  predicate AtEnd(p: string) {
    p == [] || p[0] == '/'
  }

  /** compare_pointers: does the next token of `pointer` spell `name`? */
  predicate ComparePointers(name: string, pointer: string, caseSensitive: bool)
    decreases |pointer|
  {
    if name == [] || AtEnd(pointer) then name == [] && AtEnd(pointer)
    else if pointer[0] == '~' then
      |pointer| > 1 && ((pointer[1] == '0' && name[0] == '~') || (pointer[1] == '1' && name[0] == '/')) &&
      ComparePointers(name[1..], pointer[2..], caseSensitive)
    else
      View([name[0]], caseSensitive) == View([pointer[0]], caseSensitive) &&
      ComparePointers(name[1..], pointer[1..], caseSensitive)
  }

  /** The digit loop: it tests the first character against '9', not the current one. */
  function ScanIndex(p: string, pos: nat, acc: nat): Option<nat>
    requires pos <= |p|
    decreases |p| - pos
  {
    if pos < |p| && p[pos] >= '0' && p[0] <= '9' then
      ScanIndex(p, pos + 1, (10 * acc + DigitValue(p[pos])) % SIZE_LIMIT)
    else if AtEnd(p[pos..]) then Some(acc)
    else None
  }

  /** decode_array_index_from_pointer, in size_t. */
  function DecodeIndex(p: string): Option<nat> {
    if p != [] && p[0] == '0' && !AtEnd(p[1..]) then None else ScanIndex(p, 0, 0)
  }

  method DecodeArrayIndexFromPointer(p: string) returns (r: Option<nat>)
    ensures r == DecodeIndex(p)
  {
    if p != [] && p[0] == '0' && !AtEnd(p[1..]) { return None; }
    var position: nat, index: nat := 0, 0;
    while position < |p| && p[position] >= '0' && p[0] <= '9'
      invariant position <= |p| && ScanIndex(p, position, index) == ScanIndex(p, 0, 0)
    {
      index := (10 * index + DigitValue(p[position])) % SIZE_LIMIT;
      position := position + 1;
    }
    if !AtEnd(p[position..]) { return None; }
    return Some(index);
  }

  function SkipToken(p: string): (r: string)
    ensures |r| <= |p| && AtEnd(r)
  {
    if AtEnd(p) then p else SkipToken(p[1..])
  }

  function FindByPointer(ms: seq<Member>, p: string, caseSensitive: bool): (r: nat)
    ensures r <= |ms|
    ensures forall i :: 0 <= i < r ==> !ComparePointers(ms[i].key, p, caseSensitive)
    ensures r < |ms| ==> ComparePointers(ms[r].key, p, caseSensitive)
  {
    if ms == [] || ComparePointers(ms[0].key, p, caseSensitive) then 0
    else 1 + FindByPointer(ms[1..], p, caseSensitive)
  }

  /** The child that the token at the start of p leads to. */
  function Step(j: Json, p: string, caseSensitive: bool): (r: Option<nat>)
    ensures r.Some? ==> r.value < |Children(j)|
  {
    match j
    case Array(items) =>
      var i := DecodeIndex(p);
      if i.Some? && i.value < |items| then i else None
    case Object(ms) =>
      var i := FindByPointer(ms, p, caseSensitive);
      if i < |ms| then Some(i) else None
    case _ => None
  }

  /** get_item_from_pointer: the position of the node a pointer leads to. */
  function Locate(j: Json, p: string, caseSensitive: bool): (r: Option<seq<nat>>)
    ensures r.Some? ==> IsPosition(j, r.value)
    decreases |p|
  {
    if p == [] || p[0] != '/' then Some([]) else
      var i := Step(j, p[1..], caseSensitive);
      if i.None? then None else
        var rest := Locate(Children(j)[i.value], SkipToken(p[1..]), caseSensitive);
        if rest.None? then None else Some([i.value] + rest.value)
  }

  method FindChildByPointer(ms: seq<Member>, p: string, caseSensitive: bool) returns (k: nat)
    ensures k == FindByPointer(ms, p, caseSensitive)
  {
    k := 0;
    while k < |ms| && !ComparePointers(ms[k].key, p, caseSensitive)
      invariant k <= |ms|
      invariant forall n :: 0 <= n < k ==> !ComparePointers(ms[n].key, p, caseSensitive)
    {
      k := k + 1;
    }
  }

  method StepFromPointer(current: Json, p: string, caseSensitive: bool) returns (i: Option<nat>)
    ensures i == Step(current, p, caseSensitive)
  {
    i := None;
    if current.Array? {
      i := DecodeArrayIndexFromPointer(p);
      if i.Some? && i.value >= |current.items| { i := None; }
    } else if current.Object? {
      var k := FindChildByPointer(current.members, p, caseSensitive);
      if k < |current.members| { i := Some(k); }
    }
  }

  method GetItemFromPointer(root: Json, pointer: string, caseSensitive: bool) returns (r: Option<Json>)
    ensures var pos := Locate(root, pointer, caseSensitive);
      r == if pos.None? then None else Some(At(root, pos.value))
  {
    var current, p := root, pointer;
    ghost var goal := Found(root, Locate(root, pointer, caseSensitive));
    while p != [] && p[0] == '/'
      invariant Found(current, Locate(current, p, caseSensitive)) == goal
      decreases |p|
    {
      p := p[1..];
      var i := StepFromPointer(current, p, caseSensitive);
      if i.None? { return None; }
      current, p := Children(current)[i.value], SkipToken(p);
    }
    return Some(current);
  }

  ghost function Found(j: Json, pos: Option<seq<nat>>): Option<Json>
    requires pos.Some? ==> IsPosition(j, pos.value)
  {
    if pos.None? then None else Some(At(j, pos.value))
  }

  // ----- a found pointer leads back -----

  lemma {:induction false} SkipsToken(token: string, rest: string)
    requires '/' !in token && AtEnd(rest)
    ensures SkipToken(token + rest) == rest
  {
    if token == [] {
      assert token + rest == rest;
    } else {
      SkipsToken(token[1..], rest);
      assert (token + rest)[1..] == token[1..] + rest;
    }
  }

  lemma HeadView(name: string, key: string, caseSensitive: bool)
    requires name != [] && key != []
    ensures View(name, caseSensitive) == View(key, caseSensitive) <==>
      View([name[0]], caseSensitive) == View([key[0]], caseSensitive) && View(name[1..], caseSensitive) == View(key[1..], caseSensitive)
  {
    var n, k := View(name, caseSensitive), View(key, caseSensitive);
    assert n == View([name[0]], caseSensitive) + View(name[1..], caseSensitive);
    assert k == View([key[0]], caseSensitive) + View(key[1..], caseSensitive);
    assert n[0] == View([name[0]], caseSensitive)[0] && n[1..] == View(name[1..], caseSensitive);
    assert k[0] == View([key[0]], caseSensitive)[0] && k[1..] == View(key[1..], caseSensitive);
  }

  /** An encoded key is matched by that key and by no other, but for case when that is ignored. */
  lemma {:induction false} EncodedMatches(name: string, key: string, rest: string, caseSensitive: bool)
    requires AtEnd(rest)
    ensures ComparePointers(name, Encode(key) + rest, caseSensitive) <==> View(name, caseSensitive) == View(key, caseSensitive)
    decreases |key|
  {
    var p := Encode(key) + rest;
    if key == [] {
      assert p == rest;
    } else {
      var e := EncodeChar(key[0]);
      assert p == e + (Encode(key[1..]) + rest);
      assert p[|e|..] == Encode(key[1..]) + rest;
      if name != [] {
        EncodedMatches(name[1..], key[1..], rest, caseSensitive);
        HeadView(name, key, caseSensitive);
        OnlyItself(name[0], key[0], caseSensitive);
      }
    }
  }

  /** Folding turns nothing but themselves into a slash or a tilde. */
  lemma OnlyItself(c: char, d: char, caseSensitive: bool)
    ensures d == '/' || d == '~' ==> (View([c], caseSensitive) == View([d], caseSensitive) <==> c == d)
  {
    assert View([c], caseSensitive)[0] == (if caseSensitive then c else ToLower(c));
    assert View([d], caseSensitive)[0] == (if caseSensitive then d else ToLower(d));
    if c == d { assert [c] == [d]; }
  }

  lemma {:induction false} ScansDigits(p: string, pos: nat, digits: string, acc: nat)
    requires forall i :: 0 <= i < |digits| ==> IsDigit(digits[i])
    requires pos + |digits| <= |p| && p[pos..pos + |digits|] == digits && AtEnd(p[pos + |digits|..])
    requires digits == [] || IsDigit(p[0])
    requires ReadOn(digits, acc) < SIZE_LIMIT
    ensures ScanIndex(p, pos, acc) == Some(ReadOn(digits, acc))
    decreases |digits|
  {
    if digits == [] {
    } else {
      assert p[pos] == digits[0];
      var acc' := 10 * acc + DigitValue(digits[0]);
      ReadOnGrows(digits[1..], acc');
      ScansDigits(p, pos + 1, digits[1..], acc');
    }
  }

  lemma DecodesDecimal(i: nat, rest: string)
    requires i < SIZE_LIMIT && AtEnd(rest)
    ensures DecodeIndex(Decimal(i) + rest) == Some(i)
  {
    var p, digits := Decimal(i) + rest, Decimal(i);
    ReadDecimal(i);
    assert p[|digits|..] == rest;
    if p[0] == '0' { assert p[1..] == rest; }
    ScansDigits(p, 0, digits, 0);
  }

  /** No object repeats a key as it is looked up, and every array can be indexed by a size_t. */
  predicate Addressable(j: Json, caseSensitive: bool)
    decreases Depth(j)
  {
    match j
    case Array(items) => |items| <= SIZE_LIMIT && forall i :: 0 <= i < |items| ==> Addressable(items[i], caseSensitive)
    case Object(ms) =>
      (forall i, j :: 0 <= i < j < |ms| ==> View(ms[i].key, caseSensitive) != View(ms[j].key, caseSensitive)) &&
      forall i :: 0 <= i < |ms| ==> Addressable(ms[i].val, caseSensitive)
    case _ => true
  }

  /** Child i is the one that its own token leads to. */
  ghost predicate Reaches(j: Json, i: nat, caseSensitive: bool) {
    i < |Children(j)| && match j
      case Object(ms) => forall k :: 0 <= k < |ms| && k != i ==> View(ms[k].key, caseSensitive) != View(ms[i].key, caseSensitive)
      case _ => i < SIZE_LIMIT
  }

  lemma TokenSteps(j: Json, i: nat, rest: string, caseSensitive: bool)
    requires Reaches(j, i, caseSensitive) && AtEnd(rest)
    ensures Step(j, Token(j, i) + rest, caseSensitive) == Some(i)
  {
    match j {
      case Object(ms) =>
        forall k | 0 <= k < |ms|
          ensures ComparePointers(ms[k].key, Token(j, i) + rest, caseSensitive) <==> k == i
        {
          EncodedMatches(ms[k].key, ms[i].key, rest, caseSensitive);
        }
      case Array(_) =>
        DecodesDecimal(i, rest);
    }
  }

  lemma {:induction false} PathLocates(j: Json, pos: seq<nat>, caseSensitive: bool)
    requires Addressable(j, caseSensitive) && IsPosition(j, pos)
    ensures AtEnd(PathText(j, pos)) && Locate(j, PathText(j, pos), caseSensitive) == Some(pos)
    decreases |pos|
  {
    if pos != [] {
      var i, child := pos[0], Children(j)[pos[0]];
      PathLocates(child, pos[1..], caseSensitive);
      LocateBelow(j, i, PathText(child, pos[1..]), caseSensitive);
      assert pos == [i] + pos[1..];
    }
  }

  /** Behind the token of a child, a pointer is followed from that child. */
  lemma LocateBelow(j: Json, i: nat, rest: string, caseSensitive: bool)
    requires Reaches(j, i, caseSensitive) && AtEnd(rest)
    ensures var tail := Locate(Children(j)[i], rest, caseSensitive);
      Locate(j, "/" + Token(j, i) + rest, caseSensitive) == if tail.None? then None else Some([i] + tail.value)
  {
    hide Token;
    hide Step;
    hide SkipToken;
    hide Locate;
    TokenSteps(j, i, rest, caseSensitive);
    SkipsToken(Token(j, i), rest);
    LocateStep(j, Token(j, i) + rest, i, rest, caseSensitive);
    assert "/" + Token(j, i) + rest == "/" + (Token(j, i) + rest);
  }

  lemma LocateStep(j: Json, q: string, i: nat, rest: string, caseSensitive: bool)
    requires Step(j, q, caseSensitive) == Some(i) && SkipToken(q) == rest
    ensures var tail := Locate(Children(j)[i], rest, caseSensitive);
      Locate(j, "/" + q, caseSensitive) == if tail.None? then None else Some([i] + tail.value)
  {
    assert ("/" + q)[1..] == q;
  }

  /** The pointer found for any node of the tree leads back to that very node. */
  lemma PointerRoundTrip(root: Json, target: seq<nat>, caseSensitive: bool)
    requires Addressable(root, caseSensitive)
    ensures IsPosition(root, target) <==> FindPointer(root, [], target).Some?
    ensures IsPosition(root, target) ==> Locate(root, FindPointer(root, [], target).value, caseSensitive) == Some(target)
  {
    FindPointerFinds(root, [], target);
    assert target[0..] == target;
    if IsPosition(root, target) { PathLocates(root, target, caseSensitive); }
  }
}
