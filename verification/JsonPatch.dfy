/**
  JSON Patch (RFC 6902): applying one patch, applying a list of them, and
  generating the list that turns one document into another.
 */
module JsonPatch {
  import opened Sequences
  import opened CStrings
  import opened Decimals
  import opened JsonValues
  import opened Members
  import opened Compare
  import opened Pointers
  import opened PointerDecoding

  // ----- editing a document at a position -----

  /** The document with another node in the place of the one at pos. */
  function Put(j: Json, pos: seq<nat>, x: Json): Json
    requires IsPosition(j, pos)
    decreases |pos|
  {
    if pos == [] then x else
      match j
      case Array(items) => Array(items[pos[0] := Put(items[pos[0]], pos[1..], x)])
      case Object(ms) => Object(ms[pos[0] := Member(ms[pos[0]].key, Put(ms[pos[0]].val, pos[1..], x))])
  }

  function LastSlash(s: string): (r: Option<nat>)
    ensures r.Some? ==> r.value < |s| && s[r.value] == '/' && '/' !in s[r.value + 1..]
    ensures r.None? ==> '/' !in s
  {
    if s == [] then None
    else if s[|s| - 1] == '/' then Some(|s| - 1)
    else LastSlash(s[..|s| - 1])
  }

  /** The parent without the child, and the child. Objects are searched ignoring case. */
  function DetachChild(parent: Json, child: string): Option<(Json, Json)> {
    match parent
    case Array(items) =>
      var i := DecodeIndex(child);
      if i.None? || i.value >= |items| then None else Some((Array(RemoveAt(items, i.value)), items[i.value]))
    case Object(ms) =>
      var i := FindMember(ms, child, false);
      if i == |ms| then None else Some((Object(RemoveAt(ms, i)), ms[i].val))
    case _ => None
  }

  /** detach_path: the document without the item, and the item. */
  function DetachPath(doc: Json, path: string, caseSensitive: bool): Option<(Json, Json)> {
    var slash := LastSlash(path);
    if slash.None? then None else
      var pos := Locate(doc, path[..slash.value], caseSensitive);
      if pos.None? then None else
        var r := DetachChild(At(doc, pos.value), Decode(path[slash.value + 1..]));
        if r.None? then None else Some((Put(doc, pos.value, r.value.0), r.value.1))
  }

  datatype Patched =
    | Patched(status: nat, doc: Json)
    | RootRemoved // the document is left as an item of no valid type

  /** A status, and for status 0 the parent with the value under that child name. */
  function AddChild(parent: Json, child: string, value: Json, caseSensitive: bool): (nat, Json) {
    match parent
    case Array(items) =>
      if child == "-" then (0, Array(items + [value])) else
        var i := DecodeIndex(child);
        if i.None? then (11, parent)
        else if i.value > |items| then (10, parent)
        else (0, Array(items[..i.value] + [value] + items[i.value..]))
    case Object(ms) =>
      var i := FindMember(ms, child, caseSensitive);
      var rest := if i < |ms| then RemoveAt(ms, i) else ms;
      (0, Object(rest + [Member(child, value)]))
    case _ => (9, parent)
  }

  /** The last part of apply_patch: put `value` where the path says. */
  function AddAt(doc: Json, path: string, value: Json, caseSensitive: bool): Patched {
    var slash := LastSlash(path);
    if slash.None? then Patched(9, doc) else
      var pos := Locate(doc, path[..slash.value], caseSensitive);
      if pos.None? then Patched(9, doc) else
        var (status, parent) := AddChild(At(doc, pos.value), Decode(path[slash.value + 1..]), value, caseSensitive);
        Patched(status, if status == 0 then Put(doc, pos.value, parent) else doc)
  }

  // ----- apply_patch -----

  function MemberOf(j: Json, name: string, caseSensitive: bool): Option<Json> {
    if !j.Object? then None else
      var i := FindMember(j.members, name, caseSensitive);
      if i < |j.members| then Some(j.members[i].val) else None
  }

  function TextOf(j: Option<Json>): Option<string> {
    if j.Some? && j.value.String? then Some(j.value.s) else None
  }

  const OPERATIONS := ["add", "remove", "replace", "move", "copy", "test"]

  /** A test leaves what it compared in the order the comparison sorted it. */
  function ApplyPatch(doc: Json, patch: Json, caseSensitive: bool): Patched {
    var path := TextOf(MemberOf(patch, "path", caseSensitive));
    var op := TextOf(MemberOf(patch, "op", caseSensitive));
    var value := MemberOf(patch, "value", caseSensitive);
    if path.None? then Patched(2, doc)
    else if op.None? || op.value !in OPERATIONS then Patched(3, doc)
    else if op.value == "test" then
      var pos := Locate(doc, path.value, caseSensitive);
      if pos.None? || value.None? then Patched(1, doc) else
        var node := At(doc, pos.value);
        Patched(if SortedEqual(node, value.value, caseSensitive) then 0 else 1,
                Put(doc, pos.value, Left(node, value.value, caseSensitive).0))
    else if path.value == [] && op.value == "remove" then RootRemoved
    else if path.value == [] && op.value in ["replace", "add"] then
      if value.None? then Patched(7, doc) else Patched(0, value.value)
    else if op.value in ["remove", "replace"] then
      var detached := DetachPath(doc, path.value, caseSensitive);
      if detached.None? then Patched(13, doc)
      else if op.value == "remove" then Patched(0, detached.value.0)
      else if value.None? then Patched(7, detached.value.0)
      else AddAt(detached.value.0, path.value, value.value, caseSensitive)
    else if op.value in ["move", "copy"] then
      ApplyFrom(doc, path.value, MemberOf(patch, "from", caseSensitive), op.value == "move", caseSensitive)
    else if value.None? then Patched(7, doc)
    else AddAt(doc, path.value, value.value, caseSensitive)
  }

  /** Move and copy take their value from another place of the document. */
  function ApplyFrom(doc: Json, path: string, source: Option<Json>, move: bool, caseSensitive: bool): Patched {
    if source.None? then Patched(4, doc)
    else if !source.value.String? then Patched(5, doc)
    else if move then
      var detached := DetachPath(doc, source.value.s, caseSensitive);
      if detached.None? then Patched(5, doc)
      else AddAt(detached.value.0, path, detached.value.1, caseSensitive)
    else
      var pos := Locate(doc, source.value.s, caseSensitive);
      if pos.None? then Patched(5, doc) else AddAt(doc, path, At(doc, pos.value), caseSensitive)
  }

  /** cJSONUtils_ApplyPatches: in order, up to the first failure. */
  function ApplyAll(doc: Json, patches: seq<Json>, caseSensitive: bool): Patched
    decreases |patches|
  {
    if patches == [] then Patched(0, doc) else
      var r := ApplyPatch(doc, patches[0], caseSensitive);
      if r.RootRemoved? || r.status != 0 then r else ApplyAll(r.doc, patches[1..], caseSensitive)
  }

  method ApplyPatches(start: Json, patches: Json, caseSensitive: bool) returns (r: Patched)
    ensures r == if patches.Array? then ApplyAll(start, patches.items, caseSensitive) else Patched(1, start)
  {
    if !patches.Array? { return Patched(1, start); }
    var doc, rest := start, patches.items;
    while rest != []
      invariant ApplyAll(start, patches.items, caseSensitive) == ApplyAll(doc, rest, caseSensitive)
      decreases |rest|
    {
      r := ApplyPatch(doc, rest[0], caseSensitive);
      if r.RootRemoved? || r.status != 0 { return; }
      doc, rest := r.doc, rest[1..];
    }
    return Patched(0, doc);
  }

  // ----- create_patches -----

  /** compose_patch without a suffix; with one, the path gets one more encoded token. */
  function Compose(op: string, path: string, value: Option<Json>): Json {
    Object([Member("op", String(op)), Member("path", String(path))] +
           if value.Some? then [Member("value", value.value)] else [])
  }

  function Extend(path: string, suffix: string): string {
    path + "/" + Encode(suffix)
  }

  predicate SameKind(a: Json, b: Json) {
    match a
    case Null => b.Null?
    case False => b.False?
    case True => b.True?
    case Number(_) => b.Number?
    case String(_) => b.String?
    case Array(_) => b.Array?
    case Object(_) => b.Object?
  }

  function Create(path: string, have: Json, want: Json, caseSensitive: bool): seq<Json>
    decreases Depth(have), 2
  {
    if !SameKind(have, want) then [Compose("replace", path, Some(want))]
    else
      match have
      case Number(n) => if n != want.n then [Compose("replace", path, Some(want))] else []
      case String(s) => if s != want.s then [Compose("replace", path, Some(want))] else []
      case Array(items) => CreateItems(path, have, want.items, 0, caseSensitive)
      case Object(_) => CreateSorted(path, have, want.members, caseSensitive)
      case _ => []
  }

  /** Both objects are sorted before the walk. */
  function CreateSorted(path: string, have: Json, want: seq<Member>, caseSensitive: bool): seq<Json>
    requires have.Object?
    decreases Depth(have), 1
  {
    SortedDepth(have.members, caseSensitive);
    CreateMembers(path, have, SortMembers(have.members, caseSensitive), SortMembers(want, caseSensitive), caseSensitive)
  }

  /** The elements both arrays have, then removals at the first index too many, then additions at the end. */
  function CreateItems(path: string, have: Json, want: seq<Json>, i: nat, caseSensitive: bool): seq<Json>
    requires have.Array? && i <= |have.items| && i <= |want|
    decreases Depth(have), 0, |want| - i
  {
    if i < |have.items| && i < |want| then
      Create(path + "/" + Decimal(i), have.items[i], want[i], caseSensitive) +
      CreateItems(path, have, want, i + 1, caseSensitive)
    else
      RemoveRest(path, i, |have.items| - i) + AddRest(path, want, i)
  }

  function RemoveRest(path: string, index: nat, count: nat): seq<Json> {
    if count == 0 then [] else [Compose("remove", Extend(path, Decimal(index)), None)] + RemoveRest(path, index, count - 1)
  }

  function AddRest(path: string, want: seq<Json>, i: nat): seq<Json>
    requires i <= |want|
    decreases |want| - i
  {
    if i == |want| then [] else [Compose("add", Extend(path, "-"), Some(want[i]))] + AddRest(path, want, i + 1)
  }

  /** Which list the walk advances in: negative the first, positive the second, zero both. */
  function WalkSign(x: seq<Member>, y: seq<Member>, caseSensitive: bool): int {
    if x == [] then 1 else if y == [] then -1 else CompareStrings(x[0].key, y[0].key, caseSensitive)
  }

  function CreateMembers(path: string, ghost parent: Json, x: seq<Member>, y: seq<Member>, caseSensitive: bool): seq<Json>
    requires forall i :: 0 <= i < |x| ==> Depth(x[i].val) < Depth(parent)
    decreases Depth(parent), 0, |x| + |y|
  {
    if x == [] && y == [] then [] else
      var diff := WalkSign(x, y, caseSensitive);
      if diff == 0 then
        Create(Extend(path, x[0].key), x[0].val, y[0].val, caseSensitive) + CreateMembers(path, parent, x[1..], y[1..], caseSensitive)
      else if diff < 0 then
        [Compose("remove", Extend(path, x[0].key), None)] + CreateMembers(path, parent, x[1..], y, caseSensitive)
      else
        [Compose("add", Extend(path, y[0].key), Some(y[0].val))] + CreateMembers(path, parent, x, y[1..], caseSensitive)
  }

  /** create_patches: the loops append to the array of patches. */
  method CreatePatches(before: seq<Json>, path: string, have: Json, want: Json, caseSensitive: bool) returns (patches: seq<Json>)
    ensures patches == before + Create(path, have, want, caseSensitive)
    decreases Depth(have), 1
  {
    patches := before;
    if !SameKind(have, want) || (have.Number? && have.n != want.n) || (have.String? && have.s != want.s) {
      patches := patches + [Compose("replace", path, Some(want))];
    } else if have.Array? {
      patches := CreateItemPatches(before, path, have, want.items, caseSensitive);
    } else if have.Object? {
      patches := CreateMemberPatches(before, path, have, want.members, caseSensitive);
    }
  }

  method CreateItemPatches(before: seq<Json>, path: string, have: Json, want: seq<Json>, caseSensitive: bool)
    returns (patches: seq<Json>)
    requires have.Array?
    ensures patches == before + CreateItems(path, have, want, 0, caseSensitive)
    decreases Depth(have), 0
  {
    patches := before;
    ghost var all := before + CreateItems(path, have, want, 0, caseSensitive);
    var index := 0;
    while index < |have.items| && index < |want|
      invariant index <= |have.items| && index <= |want|
      invariant patches + CreateItems(path, have, want, index, caseSensitive) == all
    {
      ghost var sofar := patches;
      ghost var inner := Create(path + "/" + Decimal(index), have.items[index], want[index], caseSensitive);
      patches := CreatePatches(patches, path + "/" + Decimal(index), have.items[index], want[index], caseSensitive);
      index := index + 1;
      Append(sofar, inner, CreateItems(path, have, want, index, caseSensitive));
    }
    var left := |have.items| - index;
    ghost var additions := AddRest(path, want, index);
    Append(patches, RemoveRest(path, index, left), additions);
    while left > 0
      invariant 0 <= left && patches + RemoveRest(path, index, left) + additions == all
    {
      ghost var sofar, remove := patches, [Compose("remove", Extend(path, Decimal(index)), None)];
      patches := patches + [Compose("remove", Extend(path, Decimal(index)), None)];
      left := left - 1;
      Append(sofar, remove, RemoveRest(path, index, left));
    }
    assert patches + RemoveRest(path, index, 0) == patches;
    while index < |want|
      invariant index <= |want| && patches + AddRest(path, want, index) == all
    {
      ghost var sofar, add := patches, [Compose("add", Extend(path, "-"), Some(want[index]))];
      patches := patches + [Compose("add", Extend(path, "-"), Some(want[index]))];
      index := index + 1;
      Append(sofar, add, AddRest(path, want, index));
    }
  }

  method CreateMemberPatches(before: seq<Json>, path: string, have: Json, want: seq<Member>, caseSensitive: bool)
    returns (patches: seq<Json>)
    requires have.Object?
    ensures patches == before + CreateSorted(path, have, want, caseSensitive)
    decreases Depth(have), 0
  {
    var x, y := SortMembers(have.members, caseSensitive), SortMembers(want, caseSensitive);
    SortedDepth(have.members, caseSensitive);
    patches := before;
    ghost var all := before + CreateMembers(path, have, x, y, caseSensitive);
    while x != [] || y != []
      invariant forall i :: 0 <= i < |x| ==> Depth(x[i].val) < Depth(have)
      invariant patches + CreateMembers(path, have, x, y, caseSensitive) == all
      decreases |x| + |y|
    {
      var diff, x', y' := WalkSign(x, y, caseSensitive), x, y;
      ghost var sofar, step := patches, [];
      if diff == 0 {
        step := Create(Extend(path, x[0].key), x[0].val, y[0].val, caseSensitive);
        patches := CreatePatches(patches, Extend(path, x[0].key), x[0].val, y[0].val, caseSensitive);
        x', y' := x[1..], y[1..];
      } else if diff < 0 {
        step := [Compose("remove", Extend(path, x[0].key), None)];
        patches := patches + [Compose("remove", Extend(path, x[0].key), None)];
        x' := x[1..];
      } else {
        step := [Compose("add", Extend(path, y[0].key), Some(y[0].val))];
        patches := patches + [Compose("add", Extend(path, y[0].key), Some(y[0].val))];
        y' := y[1..];
      }
      assert CreateMembers(path, have, x, y, caseSensitive) == step + CreateMembers(path, have, x', y', caseSensitive);
      Append(sofar, step, CreateMembers(path, have, x', y', caseSensitive));
      x, y := x', y';
    }
  }
}
