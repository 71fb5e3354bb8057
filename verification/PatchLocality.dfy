/**
  A patch whose path leads below a child acts on that child as the patch with the
  rest of the path would, and on nothing else.
 */
module PatchLocality {
  import opened CStrings
  import opened Decimals
  import opened JsonValues
  import opened Members
  import opened Compare
  import opened Pointers
  import opened PointerDecoding
  import opened JsonPatch

  // ----- the parts of a composed patch -----

  lemma ComposedMembers(op: string, path: string, value: Option<Json>, caseSensitive: bool)
    ensures var p := Compose(op, path, value);
      MemberOf(p, "op", caseSensitive) == Some(String(op)) && MemberOf(p, "path", caseSensitive) == Some(String(path)) &&
      MemberOf(p, "value", caseSensitive) == value
  {
    var ms := Compose(op, path, value).members;
    PatchNames();
    FindIs(ms, "op", 0, caseSensitive);
    FindIs(ms, "path", 1, caseSensitive);
    if value.Some? {
      FindIs(ms, "value", 2, caseSensitive);
    } else {
      var i := FindMember(ms, "value", caseSensitive);
      assert i == 0 || i == 1 || i == 2;
    }
  }

  /** The names in a patch are different ones even when case is ignored. */
  lemma PatchNames()
    ensures Fold("op") == "op" && Fold("path") == "path" && Fold("value") == "value" && Fold("from") == "from"
  {
  }

  lemma FindIs(ms: seq<Member>, name: string, i: nat, caseSensitive: bool)
    requires i < |ms| && ms[i].key == name
    requires forall n :: 0 <= n < i ==> View(ms[n].key, caseSensitive) != View(name, caseSensitive)
    ensures FindMember(ms, name, caseSensitive) == i
  {
  }

  lemma RemovePatch(doc: Json, path: string, caseSensitive: bool)
    requires path != []
    ensures var d := DetachPath(doc, path, caseSensitive);
      ApplyPatch(doc, Compose("remove", path, None), caseSensitive) ==
        if d.None? then Patched(13, doc) else Patched(0, d.value.0)
  {
    ComposedMembers("remove", path, None, caseSensitive);
  }

  lemma AddPatch(doc: Json, path: string, x: Json, caseSensitive: bool)
    requires path != []
    ensures ApplyPatch(doc, Compose("add", path, Some(x)), caseSensitive) == AddAt(doc, path, x, caseSensitive)
  {
    ComposedMembers("add", path, Some(x), caseSensitive);
  }

  lemma ReplacePatch(doc: Json, path: string, x: Json, caseSensitive: bool)
    requires path != []
    ensures var d := DetachPath(doc, path, caseSensitive);
      ApplyPatch(doc, Compose("replace", path, Some(x)), caseSensitive) ==
        if d.None? then Patched(13, doc) else AddAt(d.value.0, path, x, caseSensitive)
  {
    ComposedMembers("replace", path, Some(x), caseSensitive);
  }

  lemma ReplaceRoot(doc: Json, x: Json, caseSensitive: bool)
    ensures ApplyPatch(doc, Compose("replace", "", Some(x)), caseSensitive) == Patched(0, x)
  {
    ComposedMembers("replace", "", Some(x), caseSensitive);
  }

  // ----- lists of patches -----

  predicate Ok(r: Patched) {
    r.Patched? && r.status == 0
  }

  lemma {:induction false} ApplyBoth(doc: Json, a: seq<Json>, b: seq<Json>, caseSensitive: bool)
    ensures var r := ApplyAll(doc, a, caseSensitive);
      ApplyAll(doc, a + b, caseSensitive) == if Ok(r) then ApplyAll(r.doc, b, caseSensitive) else r
    decreases |a|
  {
    if a == [] {
      assert a + b == b;
    } else {
      assert (a + b)[0] == a[0] && (a + b)[1..] == a[1..] + b;
      var r := ApplyPatch(doc, a[0], caseSensitive);
      if Ok(r) { ApplyBoth(r.doc, a[1..], b, caseSensitive); }
    }
  }

  lemma OnePatch(doc: Json, patch: Json, caseSensitive: bool)
    ensures ApplyAll(doc, [], caseSensitive) == Patched(0, doc)
    ensures ApplyAll(doc, [patch], caseSensitive) == ApplyPatch(doc, patch, caseSensitive)
  {
    var r := ApplyPatch(doc, patch, caseSensitive);
    assert [patch][1..] == [];
    assert ApplyAll(doc, [patch], caseSensitive) == if Ok(r) then ApplyAll(r.doc, [], caseSensitive) else r;
  }

  // ----- below a child -----

  function WithChild(j: Json, i: nat, x: Json): Json
    requires i < |Children(j)|
  {
    match j
    case Array(items) => Array(items[i := x])
    case Object(ms) => Object(ms[i := Member(ms[i].key, x)])
  }

  lemma WithChildren(j: Json, i: nat, x: Json, caseSensitive: bool)
    requires i < |Children(j)|
    ensures |Children(WithChild(j, i, x))| == |Children(j)| && Children(WithChild(j, i, x))[i] == x
    ensures Token(WithChild(j, i, x), i) == Token(j, i)
    ensures Reaches(j, i, caseSensitive) ==> Reaches(WithChild(j, i, x), i, caseSensitive)
    ensures forall y :: WithChild(WithChild(j, i, x), i, y) == WithChild(j, i, y)
    ensures WithChild(j, i, Children(j)[i]) == j
  {
    hide Decimal;
    hide Encode;
  }

  lemma PutBelow(j: Json, i: nat, pos: seq<nat>, x: Json)
    requires i < |Children(j)| && IsPosition(Children(j)[i], pos)
    ensures IsPosition(j, [i] + pos) && At(j, [i] + pos) == At(Children(j)[i], pos)
    ensures Put(j, [i] + pos, x) == WithChild(j, i, Put(Children(j)[i], pos, x))
  {
    assert ([i] + pos)[0] == i && ([i] + pos)[1..] == pos;
  }

  lemma LastSlashBelow(front: string, rest: string)
    requires '/' in rest
    ensures LastSlash(rest).Some? && LastSlash(front + rest) == Some(|front| + LastSlash(rest).value)
  {
    hide LastSlash;
    var s, n := front + rest, |front|;
    assert s[n..] == rest;
    var v := LastSlash(rest).value;
    assert s[n + v] == rest[v] == '/';
    var w := LastSlash(s).value;
    NoneBehind(rest, v);
    NoneBehind(s, w);
    assert w >= n ==> rest[w - n] == s[w];
  }

  lemma NoneBehind(s: string, n: nat)
    requires n < |s| && '/' !in s[n + 1..]
    ensures forall k :: n < k < |s| ==> s[k] != '/'
  {
    assert forall k :: n < k < |s| ==> s[n + 1..][k - n - 1] == s[k];
  }

  /** The path front + q, cut at its last slash. */
  lemma CutBelow(front: string, q: string)
    requires q != "" && q[0] == '/'
    ensures var s := LastSlash(q);
      s.Some? && AtEnd(q[..s.value]) && LastSlash(front + q) == Some(|front| + s.value) &&
      (front + q)[..|front| + s.value] == front + q[..s.value] &&
      (front + q)[|front| + s.value + 1..] == q[s.value + 1..]
  {
    assert '/' in q;
    LastSlashBelow(front, q);
    var s := LastSlash(q).value;
    assert s > 0 ==> q[..s][0] == q[0];
  }

  function Front(j: Json, i: nat): string
    requires i < |Children(j)|
  {
    "/" + Token(j, i)
  }

  /** Below a child, the parent that a path names is the one that the rest of the path names in that child. */
  lemma ParentBelow(j: Json, i: nat, q: string, caseSensitive: bool)
    requires i < |Children(j)| && Reaches(j, i, caseSensitive) && q != "" && q[0] == '/'
    ensures var f, s := Front(j, i), LastSlash(q);
      s.Some? && LastSlash(f + q) == Some(|f| + s.value) && (f + q)[|f| + s.value + 1..] == q[s.value + 1..]
    ensures var f, s := Front(j, i), LastSlash(q).value;
      var pos := Locate(Children(j)[i], q[..s], caseSensitive);
      Locate(j, (f + q)[..|f| + s], caseSensitive) == if pos.None? then None else Some([i] + pos.value)
  {
    hide LastSlash;
    hide Locate;
    CutBelow(Front(j, i), q);
    LocateBelow(j, i, q[..LastSlash(q).value], caseSensitive);
  }

  lemma LiftDetach(j: Json, i: nat, q: string, caseSensitive: bool)
    requires i < |Children(j)| && Reaches(j, i, caseSensitive) && q != "" && q[0] == '/'
    ensures var r := DetachPath(Children(j)[i], q, caseSensitive);
      DetachPath(j, Front(j, i) + q, caseSensitive) ==
        if r.None? then None else Some((WithChild(j, i, r.value.0), r.value.1))
  {
    hide Locate;
    hide LastSlash;
    hide Put;
    hide WithChild;
    hide Decode;
    hide DetachChild;
    hide Reaches;
    hide Front;
    ParentBelow(j, i, q, caseSensitive);
    var pos := Locate(Children(j)[i], q[..LastSlash(q).value], caseSensitive);
    if pos.Some? {
      var d := DetachChild(At(Children(j)[i], pos.value), Decode(q[LastSlash(q).value + 1..]));
      PutBelow(j, i, pos.value, if d.Some? then d.value.0 else Null);
    }
  }

  function Lifted(j: Json, i: nat, r: Patched): Patched
    requires i < |Children(j)| && r.Patched?
  {
    Patched(r.status, WithChild(j, i, r.doc))
  }

  lemma LiftAdd(j: Json, i: nat, q: string, x: Json, caseSensitive: bool)
    requires i < |Children(j)| && Reaches(j, i, caseSensitive) && q != "" && q[0] == '/'
    ensures AddAt(j, Front(j, i) + q, x, caseSensitive) == Lifted(j, i, AddAt(Children(j)[i], q, x, caseSensitive))
  {
    hide Locate;
    hide LastSlash;
    hide Put;
    hide WithChild;
    hide Decode;
    hide AddChild;
    hide Reaches;
    hide Front;
    ParentBelow(j, i, q, caseSensitive);
    SameChild(j, i);
    var pos := Locate(Children(j)[i], q[..LastSlash(q).value], caseSensitive);
    if pos.Some? {
      var d := AddChild(At(Children(j)[i], pos.value), Decode(q[LastSlash(q).value + 1..]), x, caseSensitive);
      PutBelow(j, i, pos.value, d.1);
    }
  }

  lemma SameChild(j: Json, i: nat)
    requires i < |Children(j)|
    ensures WithChild(j, i, Children(j)[i]) == j
  {
  }

  /** A patch that a generator composes. */
  predicate Composed(op: string, value: Option<Json>) {
    if op == "remove" then value.None? else (op == "add" || op == "replace") && value.Some?
  }

  lemma LiftPatch(j: Json, i: nat, op: string, q: string, value: Option<Json>, caseSensitive: bool)
    requires i < |Children(j)| && Reaches(j, i, caseSensitive) && q != "" && q[0] == '/' && Composed(op, value)
    ensures var r := ApplyPatch(Children(j)[i], Compose(op, q, value), caseSensitive);
      r.Patched? && ApplyPatch(j, Compose(op, Front(j, i) + q, value), caseSensitive) == Lifted(j, i, r)
  {
    var child, path := Children(j)[i], Front(j, i) + q;
    hide DetachPath;
    hide AddAt;
    hide ApplyPatch;
    hide Compose;
    hide WithChild;
    hide Reaches;
    WithChildren(j, i, Null, caseSensitive);
    if op == "remove" {
      RemovePatch(child, q, caseSensitive);
      RemovePatch(j, path, caseSensitive);
      LiftDetach(j, i, q, caseSensitive);
    } else if op == "add" {
      AddPatch(child, q, value.value, caseSensitive);
      AddPatch(j, path, value.value, caseSensitive);
      LiftAdd(j, i, q, value.value, caseSensitive);
    } else {
      ReplacePatch(child, q, value.value, caseSensitive);
      ReplacePatch(j, path, value.value, caseSensitive);
      LiftDetach(j, i, q, caseSensitive);
      var d := DetachPath(child, q, caseSensitive);
      if d.Some? {
        var j' := WithChild(j, i, d.value.0);
        WithChildren(j, i, d.value.0, caseSensitive);
        LiftAdd(j', i, q, value.value, caseSensitive);
      }
    }
  }

  // ----- lists of patches below a child -----

  ghost predicate LiftsBy(front: string, a: Json, b: Json, op: string, q: string, value: Option<Json>) {
    a == Compose(op, front + q, value) && b == Compose(op, q, value) && q != "" && q[0] == '/' && Composed(op, value)
  }

  /** The patch a is b with a longer path. */
  ghost predicate Lifts(front: string, a: Json, b: Json) {
    exists op, q, value :: LiftsBy(front, a, b, op, q, value)
  }

  ghost predicate AllLift(front: string, a: seq<Json>, b: seq<Json>) {
    |a| == |b| && forall n :: 0 <= n < |a| ==> Lifts(front, a[n], b[n])
  }

  lemma LiftOne(j: Json, i: nat, a: Json, b: Json, caseSensitive: bool)
    requires i < |Children(j)| && Reaches(j, i, caseSensitive) && Lifts(Front(j, i), a, b)
    ensures var r := ApplyPatch(Children(j)[i], b, caseSensitive);
      r.Patched? && ApplyPatch(j, a, caseSensitive) == Lifted(j, i, r)
  {
    hide ApplyPatch;
    hide Reaches;
    hide Compose;
    hide Lifted;
    var op, q, value :| LiftsBy(Front(j, i), a, b, op, q, value);
    LiftPatch(j, i, op, q, value, caseSensitive);
  }

  /** Such patches do to the document what the shorter ones do to the child. */
  lemma {:induction false} LiftAll(j: Json, i: nat, a: seq<Json>, b: seq<Json>, caseSensitive: bool)
    requires i < |Children(j)| && Reaches(j, i, caseSensitive) && AllLift(Front(j, i), a, b)
    ensures var r := ApplyAll(Children(j)[i], b, caseSensitive);
      r.Patched? && ApplyAll(j, a, caseSensitive) == Lifted(j, i, r)
    decreases |a|
  {
    hide ApplyPatch;
    hide Reaches;
    hide Lifts;
    hide WithChild;
    WithChildren(j, i, Null, caseSensitive);
    if a != [] {
      LiftOne(j, i, a[0], b[0], caseSensitive);
      var r := ApplyPatch(Children(j)[i], b[0], caseSensitive);
      if r.status == 0 {
        WithChildren(j, i, r.doc, caseSensitive);
        LiftAll(WithChild(j, i, r.doc), i, a[1..], b[1..], caseSensitive);
      }
    }
  }

  // ----- generated patches -----

  /** create_patches replaces the whole node. */
  predicate Replaced(have: Json, want: Json) {
    !SameKind(have, want) || (have.Number? && have.n != want.n) || (have.String? && have.s != want.s)
  }

  lemma CreateCases(path: string, have: Json, want: Json, caseSensitive: bool)
    ensures Create(path, have, want, caseSensitive) ==
      if Replaced(have, want) then [Compose("replace", path, Some(want))]
      else if have.Array? then CreateItems(path, have, want.items, 0, caseSensitive)
      else if have.Object? then CreateSorted(path, have, want.members, caseSensitive)
      else []
  {
  }

  lemma LiftsOne(front: string, op: string, q: string, value: Option<Json>)
    requires q != "" && q[0] == '/' && Composed(op, value)
    ensures AllLift(front, [Compose(op, front + q, value)], [Compose(op, q, value)])
  {
    hide Compose;
    assert LiftsBy(front, Compose(op, front + q, value), Compose(op, q, value), op, q, value);
  }

  lemma LiftBoth(front: string, a: seq<Json>, b: seq<Json>, a': seq<Json>, b': seq<Json>)
    requires AllLift(front, a, b) && AllLift(front, a', b')
    ensures AllLift(front, a + a', b + b')
  {
    hide Lifts;
  }

  predicate IsPath(path: string) {
    path == "" || path[0] == '/'
  }

  lemma Longer(front: string, path: string, token: string)
    requires IsPath(path)
    ensures front + path + "/" + token == front + (path + "/" + token)
    ensures IsPath(path + "/" + token) && path + "/" + token != ""
    ensures front + path + ("/" + token) == front + (path + "/" + token)
  {
  }

  /** Below a child the generator composes the patches it would compose for the child alone, with longer paths. */
  lemma {:induction false} CreateLifts(front: string, path: string, have: Json, want: Json, caseSensitive: bool)
    requires IsPath(path) && (path == "" ==> !Replaced(have, want))
    ensures AllLift(front, Create(front + path, have, want, caseSensitive), Create(path, have, want, caseSensitive))
    decreases Depth(have), 2
  {
    hide AllLift;
    hide Create;
    hide CreateItems;
    hide CreateSorted;
    CreateCases(front + path, have, want, caseSensitive);
    CreateCases(path, have, want, caseSensitive);
    if Replaced(have, want) {
      LiftsOne(front, "replace", path, Some(want));
    } else if have.Array? {
      ItemsLift(front, path, have, want.items, 0, caseSensitive);
    } else if have.Object? {
      SortedLift(front, path, have, want.members, caseSensitive);
    } else {
      NothingLifts(front);
    }
  }

  lemma NothingLifts(front: string)
    ensures AllLift(front, [], [])
  {
  }

  lemma {:induction false} SortedLift(front: string, path: string, have: Json, want: seq<Member>, caseSensitive: bool)
    requires have.Object? && IsPath(path)
    ensures AllLift(front, CreateSorted(front + path, have, want, caseSensitive), CreateSorted(path, have, want, caseSensitive))
    decreases Depth(have), 1
  {
    SortedDepth(have.members, caseSensitive);
    MembersLift(front, path, have, SortMembers(have.members, caseSensitive), SortMembers(want, caseSensitive), caseSensitive);
  }

  lemma {:induction false} ItemsLift(front: string, path: string, have: Json, want: seq<Json>, i: nat, caseSensitive: bool)
    requires have.Array? && i <= |have.items| && i <= |want| && IsPath(path)
    ensures AllLift(front, CreateItems(front + path, have, want, i, caseSensitive), CreateItems(path, have, want, i, caseSensitive))
    decreases Depth(have), 0, |want| - i
  {
    hide AllLift;
    hide Create;
    if i < |have.items| && i < |want| {
      Longer(front, path, Decimal(i));
      CreateLifts(front, path + "/" + Decimal(i), have.items[i], want[i], caseSensitive);
      ItemsLift(front, path, have, want, i + 1, caseSensitive);
      LiftBoth(front, Create(front + path + "/" + Decimal(i), have.items[i], want[i], caseSensitive),
               Create(path + "/" + Decimal(i), have.items[i], want[i], caseSensitive),
               CreateItems(front + path, have, want, i + 1, caseSensitive), CreateItems(path, have, want, i + 1, caseSensitive));
    } else {
      RemovesLift(front, path, i, |have.items| - i);
      AddsLift(front, path, want, i);
      LiftBoth(front, RemoveRest(front + path, i, |have.items| - i), RemoveRest(path, i, |have.items| - i),
               AddRest(front + path, want, i), AddRest(path, want, i));
    }
  }

  lemma {:induction false} RemovesLift(front: string, path: string, index: nat, count: nat)
    requires IsPath(path)
    ensures AllLift(front, RemoveRest(front + path, index, count), RemoveRest(path, index, count))
  {
    hide AllLift;
    if count == 0 {
      NothingLifts(front);
    } else {
      Longer(front, path, Encode(Decimal(index)));
      LiftsOne(front, "remove", Extend(path, Decimal(index)), None);
      RemovesLift(front, path, index, count - 1);
      LiftBoth(front, [Compose("remove", Extend(front + path, Decimal(index)), None)],
               [Compose("remove", Extend(path, Decimal(index)), None)],
               RemoveRest(front + path, index, count - 1), RemoveRest(path, index, count - 1));
    }
  }

  lemma {:induction false} AddsLift(front: string, path: string, want: seq<Json>, i: nat)
    requires i <= |want| && IsPath(path)
    ensures AllLift(front, AddRest(front + path, want, i), AddRest(path, want, i))
    decreases |want| - i
  {
    hide AllLift;
    if i == |want| {
      NothingLifts(front);
    } else {
      Longer(front, path, Encode("-"));
      LiftsOne(front, "add", Extend(path, "-"), Some(want[i]));
      AddsLift(front, path, want, i + 1);
      LiftBoth(front, [Compose("add", Extend(front + path, "-"), Some(want[i]))],
               [Compose("add", Extend(path, "-"), Some(want[i]))],
               AddRest(front + path, want, i + 1), AddRest(path, want, i + 1));
    }
  }

  lemma {:induction false} MembersLift(front: string, path: string, parent: Json, x: seq<Member>, y: seq<Member>, caseSensitive: bool)
    requires IsPath(path) && forall i :: 0 <= i < |x| ==> Depth(x[i].val) < Depth(parent)
    ensures AllLift(front, CreateMembers(front + path, parent, x, y, caseSensitive), CreateMembers(path, parent, x, y, caseSensitive))
    decreases Depth(parent), 0, |x| + |y|
  {
    hide AllLift;
    hide Create;
    hide CompareStrings;
    if x == [] && y == [] {
      NothingLifts(front);
      return;
    }
    var diff := WalkSign(x, y, caseSensitive);
    var x', y' := if diff <= 0 then x[1..] else x, if diff >= 0 then y[1..] else y;
    var k := if diff <= 0 then x[0].key else y[0].key;
    Longer(front, path, Encode(k));
    var a, b: seq<Json>;
    if diff == 0 {
      a, b := Create(Extend(front + path, k), x[0].val, y[0].val, caseSensitive), Create(Extend(path, k), x[0].val, y[0].val, caseSensitive);
      CreateLifts(front, Extend(path, k), x[0].val, y[0].val, caseSensitive);
    } else {
      var op, value := if diff < 0 then "remove" else "add", if diff < 0 then None else Some(y[0].val);
      a, b := [Compose(op, Extend(front + path, k), value)], [Compose(op, Extend(path, k), value)];
      LiftsOne(front, op, Extend(path, k), value);
    }
    MembersLift(front, path, parent, x', y', caseSensitive);
    LiftBoth(front, a, b, CreateMembers(front + path, parent, x', y', caseSensitive), CreateMembers(path, parent, x', y', caseSensitive));
  }

  /**
    The patches for a node that is not replaced as a whole, wherever it is in a
    document: they change the document there as they change the node alone.
   */
  lemma PatchesBelow(j: Json, i: nat, have: Json, want: Json, caseSensitive: bool)
    requires i < |Children(j)| && Reaches(j, i, caseSensitive) && !Replaced(have, want)
    ensures var r := ApplyAll(Children(j)[i], Create("", have, want, caseSensitive), caseSensitive);
      r.Patched? && ApplyAll(j, Create(Front(j, i), have, want, caseSensitive), caseSensitive) == Lifted(j, i, r)
  {
    hide Create;
    hide ApplyAll;
    hide AllLift;
    hide Reaches;
    CreateLifts(Front(j, i), "", have, want, caseSensitive);
    assert Front(j, i) + "" == Front(j, i);
    LiftAll(j, i, Create(Front(j, i), have, want, caseSensitive), Create("", have, want, caseSensitive), caseSensitive);
  }

  lemma {:induction false} PatchesAnywhere(doc: Json, pos: seq<nat>, have: Json, want: Json, caseSensitive: bool)
    requires Addressable(doc, caseSensitive) && IsPosition(doc, pos) && !Replaced(have, want)
    ensures var r := ApplyAll(At(doc, pos), Create("", have, want, caseSensitive), caseSensitive);
      r.Patched? && ApplyAll(doc, Create(PathText(doc, pos), have, want, caseSensitive), caseSensitive) ==
        Patched(r.status, Put(doc, pos, r.doc))
    decreases |pos|
  {
    hide Create;
    hide ApplyAll;
    if pos != [] {
      var i, child, rest := pos[0], Children(doc)[pos[0]], PathText(Children(doc)[pos[0]], pos[1..]);
      PatchesAnywhere(child, pos[1..], have, want, caseSensitive);
      PathStart(child, pos[1..]);
      CreateLifts(Front(doc, i), rest, have, want, caseSensitive);
      LiftAll(doc, i, Create(Front(doc, i) + rest, have, want, caseSensitive), Create(rest, have, want, caseSensitive), caseSensitive);
      PutBelow(doc, i, pos[1..], ApplyAll(At(doc, pos), Create("", have, want, caseSensitive), caseSensitive).doc);
      assert pos == [i] + pos[1..];
    } else {
      NeverRoot(doc, have, want, caseSensitive);
    }
  }

  lemma PathStart(j: Json, pos: seq<nat>)
    requires IsPosition(j, pos)
    ensures IsPath(PathText(j, pos))
  {
  }

  lemma {:induction false} NeverRoot(doc: Json, have: Json, want: Json, caseSensitive: bool)
    requires !Replaced(have, want)
    ensures ApplyAll(doc, Create("", have, want, caseSensitive), caseSensitive).Patched?
  {
    hide Create;
    hide ApplyAll;
    var parent := Array([doc]);
    PatchesBelow(parent, 0, have, want, caseSensitive);
  }
}
