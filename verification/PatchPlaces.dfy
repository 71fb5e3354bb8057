/**
  What adding, removing and replacing do at every place a pointer can name (sections
  4.1 to 4.3 of RFC 6902), and which status says that there is no such place.
 */
module PatchPlaces {
  import opened CStrings
  import opened Decimals
  import opened JsonValues
  import opened Members
  import opened Pointers
  import opened PointerDecoding
  import opened PointerSpelling
  import opened JsonPatch
  import opened PatchLocality
  import opened PatchTurns

  // ----- the place that a path names -----

  /** A path to a node, with one more token. */
  function Below(doc: Json, pos: seq<nat>, token: string): string
    requires IsPosition(doc, pos)
  {
    PathText(doc, pos) + ("/" + token)
  }

  /** The node there is the parent, and the token is what the decoder sees. */
  lemma NamesPlace(doc: Json, pos: seq<nat>, token: string, caseSensitive: bool)
    requires Addressable(doc, caseSensitive) && IsPosition(doc, pos) && '/' !in token
    ensures var path, n := Below(doc, pos, token), |PathText(doc, pos)|;
      path != "" && LastSlash(path) == Some(n) && path[n + 1..] == token && Locate(doc, path[..n], caseSensitive) == Some(pos)
  {
    hide Locate;
    hide LastSlash;
    hide PathText;
    hide Addressable;
    RootCut(token);
    CutBelow(PathText(doc, pos), "/" + token);
    assert PathText(doc, pos) + "" == PathText(doc, pos);
    PathLocates(doc, pos, caseSensitive);
  }

  lemma AddsThere(doc: Json, pos: seq<nat>, token: string, x: Json, caseSensitive: bool)
    requires Addressable(doc, caseSensitive) && IsPosition(doc, pos) && '/' !in token
    ensures var (status, parent) := AddChild(At(doc, pos), Decode(token), x, caseSensitive);
      ApplyPatch(doc, Compose("add", Below(doc, pos, token), Some(x)), caseSensitive) ==
        Patched(status, if status == 0 then Put(doc, pos, parent) else doc)
  {
    hide ApplyPatch;
    hide Locate;
    hide LastSlash;
    hide AddChild;
    hide Decode;
    hide Put;
    NamesPlace(doc, pos, token, caseSensitive);
    AddPatch(doc, Below(doc, pos, token), x, caseSensitive);
  }

  lemma DetachesThere(doc: Json, pos: seq<nat>, token: string, caseSensitive: bool)
    requires Addressable(doc, caseSensitive) && IsPosition(doc, pos) && '/' !in token
    ensures var r := DetachChild(At(doc, pos), Decode(token));
      DetachPath(doc, Below(doc, pos, token), caseSensitive) ==
        if r.None? then None else Some((Put(doc, pos, r.value.0), r.value.1))
  {
    hide Locate;
    hide LastSlash;
    hide DetachChild;
    hide Decode;
    hide Put;
    NamesPlace(doc, pos, token, caseSensitive);
  }

  lemma RemovesThere(doc: Json, pos: seq<nat>, token: string, caseSensitive: bool)
    requires Addressable(doc, caseSensitive) && IsPosition(doc, pos) && '/' !in token
    ensures var r := DetachChild(At(doc, pos), Decode(token));
      ApplyPatch(doc, Compose("remove", Below(doc, pos, token), None), caseSensitive) ==
        if r.None? then Patched(13, doc) else Patched(0, Put(doc, pos, r.value.0))
  {
    hide ApplyPatch;
    hide DetachPath;
    hide DetachChild;
    hide Decode;
    hide Put;
    DetachesThere(doc, pos, token, caseSensitive);
    RemovePatch(doc, Below(doc, pos, token), caseSensitive);
  }

  /** A replacement is a removal and an addition at the same place. */
  lemma {:induction false} ReplacesThere(doc: Json, pos: seq<nat>, token: string, x: Json, caseSensitive: bool)
    requires Addressable(doc, caseSensitive) && IsPosition(doc, pos) && '/' !in token
    ensures var r := DetachChild(At(doc, pos), Decode(token));
      ApplyPatch(doc, Compose("replace", Below(doc, pos, token), Some(x)), caseSensitive) ==
        if r.None? then Patched(13, doc) else
          var (status, parent) := AddChild(r.value.0, Decode(token), x, caseSensitive);
          Patched(status, Put(doc, pos, if status == 0 then parent else r.value.0))
    decreases |pos|
  {
    hide ApplyPatch;
    hide AddChild;
    hide DetachChild;
    hide Decode;
    var path, r := Below(doc, pos, token), DetachChild(At(doc, pos), Decode(token));
    if pos == [] {
      assert path == "/" + token;
      ReplacePatch(doc, path, x, caseSensitive);
      DetachAtRoot(doc, token, caseSensitive);
      if r.Some? { AddAtRoot(r.value.0, token, x, caseSensitive); }
    } else {
      ReplacesBelow(doc, pos, token, x, caseSensitive);
    }
  }

  lemma {:induction false} ReplacesBelow(doc: Json, pos: seq<nat>, token: string, x: Json, caseSensitive: bool)
    requires Addressable(doc, caseSensitive) && IsPosition(doc, pos) && pos != [] && '/' !in token
    ensures var r := DetachChild(At(doc, pos), Decode(token));
      ApplyPatch(doc, Compose("replace", Below(doc, pos, token), Some(x)), caseSensitive) ==
        if r.None? then Patched(13, doc) else
          var (status, parent) := AddChild(r.value.0, Decode(token), x, caseSensitive);
          Patched(status, Put(doc, pos, if status == 0 then parent else r.value.0))
    decreases |pos|, 0
  {
    hide ApplyPatch;
    hide AddChild;
    hide DetachChild;
    hide Decode;
    hide Compose;
    hide Below;
    hide Put;
    hide WithChild;
    hide Reaches;
    hide Front;
    var i, child := pos[0], Children(doc)[pos[0]];
    var q := Below(child, pos[1..], token);
    ReplacesThere(child, pos[1..], token, x, caseSensitive);
    BelowStarts(child, pos[1..], token);
    BelowFront(doc, pos, token);
    ChildReached(doc, i, caseSensitive);
    LiftPatch(doc, i, "replace", q, Some(x), caseSensitive);
    SameChild(doc, i);
    assert pos == [i] + pos[1..];
    var r := DetachChild(At(doc, pos), Decode(token));
    if r.Some? {
      var (status, parent) := AddChild(r.value.0, Decode(token), x, caseSensitive);
      PutBelow(doc, i, pos[1..], if status == 0 then parent else r.value.0);
    }
  }

  lemma BelowFront(doc: Json, pos: seq<nat>, token: string)
    requires IsPosition(doc, pos) && pos != []
    ensures Below(doc, pos, token) == Front(doc, pos[0]) + Below(Children(doc)[pos[0]], pos[1..], token)
  {
    hide Token;
  }

  lemma ChildReached(doc: Json, i: nat, caseSensitive: bool)
    requires Addressable(doc, caseSensitive) && i < |Children(doc)|
    ensures Reaches(doc, i, caseSensitive) && Addressable(Children(doc)[i], caseSensitive)
  {
  }

  lemma BelowStarts(doc: Json, pos: seq<nat>, token: string)
    requires IsPosition(doc, pos)
    ensures Below(doc, pos, token) != "" && Below(doc, pos, token)[0] == '/'
  {
    PathStart(doc, pos);
  }

  // ----- the whole document -----

  /** Section 4.1: added to the whole document, a value replaces it. */
  lemma AddRoot(doc: Json, x: Json, caseSensitive: bool)
    ensures ApplyPatch(doc, Compose("add", "", Some(x)), caseSensitive) == Patched(0, x)
  {
    ComposedMembers("add", "", Some(x), caseSensitive);
  }

  lemma RemoveRoot(doc: Json, caseSensitive: bool)
    ensures ApplyPatch(doc, Compose("remove", "", None), caseSensitive) == RootRemoved
  {
    ComposedMembers("remove", "", None, caseSensitive);
  }

  // ----- arrays -----

  /** Section 4.1: an index may be at most the length, and the elements from there on move up. */
  lemma AddAtIndex(doc: Json, pos: seq<nat>, i: nat, x: Json, caseSensitive: bool)
    requires Addressable(doc, caseSensitive) && IsPosition(doc, pos) && At(doc, pos).Array? && i < SIZE_LIMIT
    ensures var items := At(doc, pos).items;
      ApplyPatch(doc, Compose("add", Below(doc, pos, Decimal(i)), Some(x)), caseSensitive) ==
        if i <= |items| then Patched(0, Put(doc, pos, Array(items[..i] + [x] + items[i..]))) else Patched(10, doc)
  {
    hide ApplyPatch;
    hide Decode;
    hide DecodeIndex;
    hide Decimal;
    IndexDecodes(i);
    AddsThere(doc, pos, Decimal(i), x, caseSensitive);
  }

  lemma AddBehind(doc: Json, pos: seq<nat>, x: Json, caseSensitive: bool)
    requires Addressable(doc, caseSensitive) && IsPosition(doc, pos) && At(doc, pos).Array?
    ensures ApplyPatch(doc, Compose("add", Below(doc, pos, "-"), Some(x)), caseSensitive) ==
      Patched(0, Put(doc, pos, Array(At(doc, pos).items + [x])))
  {
    hide ApplyPatch;
    hide Decode;
    DecodePlain("-");
    AddsThere(doc, pos, "-", x, caseSensitive);
  }

  /** Sections 4.2 and 4.3: what is removed or replaced must be there. */
  lemma RemoveAtIndex(doc: Json, pos: seq<nat>, i: nat, caseSensitive: bool)
    requires Addressable(doc, caseSensitive) && IsPosition(doc, pos) && At(doc, pos).Array? && i < SIZE_LIMIT
    ensures var items := At(doc, pos).items;
      ApplyPatch(doc, Compose("remove", Below(doc, pos, Decimal(i)), None), caseSensitive) ==
        if i < |items| then Patched(0, Put(doc, pos, Array(items[..i] + items[i + 1..]))) else Patched(13, doc)
  {
    hide ApplyPatch;
    hide Decode;
    hide DecodeIndex;
    hide Decimal;
    IndexDecodes(i);
    RemovesThere(doc, pos, Decimal(i), caseSensitive);
  }

  lemma ReplaceAtIndex(doc: Json, pos: seq<nat>, i: nat, x: Json, caseSensitive: bool)
    requires Addressable(doc, caseSensitive) && IsPosition(doc, pos) && At(doc, pos).Array? && i < SIZE_LIMIT
    ensures var items := At(doc, pos).items;
      ApplyPatch(doc, Compose("replace", Below(doc, pos, Decimal(i)), Some(x)), caseSensitive) ==
        if i < |items| then Patched(0, Put(doc, pos, Array(items[i := x]))) else Patched(13, doc)
  {
    hide ApplyPatch;
    hide Decode;
    hide DecodeIndex;
    hide Decimal;
    hide Put;
    IndexDecodes(i);
    ReplacesThere(doc, pos, Decimal(i), x, caseSensitive);
    var items := At(doc, pos).items;
    if i < |items| { ReplaceItem(items, i, x); }
  }

  /** What does not start like a number is no index: it names no place in an array. */
  lemma NoIndex(doc: Json, pos: seq<nat>, token: string, x: Json, caseSensitive: bool)
    requires Addressable(doc, caseSensitive) && IsPosition(doc, pos) && At(doc, pos).Array?
    requires token != "" && token != "-" && !IsDigit(token[0]) && '/' !in token && '~' !in token
    ensures ApplyPatch(doc, Compose("add", Below(doc, pos, token), Some(x)), caseSensitive) == Patched(11, doc)
    ensures ApplyPatch(doc, Compose("remove", Below(doc, pos, token), None), caseSensitive) == Patched(13, doc)
    ensures ApplyPatch(doc, Compose("replace", Below(doc, pos, token), Some(x)), caseSensitive) == Patched(13, doc)
  {
    hide ApplyPatch;
    hide Decode;
    hide DecodeIndex;
    hide Put;
    DecodePlain(token);
    IndexTaken(token, "");
    assert token + "" == token;
    AddsThere(doc, pos, token, x, caseSensitive);
    RemovesThere(doc, pos, token, caseSensitive);
    ReplacesThere(doc, pos, token, x, caseSensitive);
  }

  // ----- objects -----

  /** The members of other names, as names are compared. */
  function Others(ms: seq<Member>, name: string, caseSensitive: bool): seq<Member> {
    if ms == [] then []
    else if View(ms[0].key, caseSensitive) == View(name, caseSensitive) then Others(ms[1..], name, caseSensitive)
    else [ms[0]] + Others(ms[1..], name, caseSensitive)
  }

  /** Whether a name is there, as names are compared. */
  predicate Has(ms: seq<Member>, name: string, caseSensitive: bool) {
    exists i :: 0 <= i < |ms| && View(ms[i].key, caseSensitive) == View(name, caseSensitive)
  }

  predicate ViewsDiffer(ms: seq<Member>, caseSensitive: bool) {
    forall i, j :: 0 <= i < j < |ms| ==> View(ms[i].key, caseSensitive) != View(ms[j].key, caseSensitive)
  }

  lemma HasFinds(ms: seq<Member>, name: string, caseSensitive: bool)
    ensures Has(ms, name, caseSensitive) <==> FindMember(ms, name, caseSensitive) < |ms|
  {
    hide View;
    var i := FindMember(ms, name, caseSensitive);
    assert i < |ms| ==> View(ms[i].key, caseSensitive) == View(name, caseSensitive);
  }

  lemma FindStep(ms: seq<Member>, name: string, caseSensitive: bool)
    requires ms != []
    ensures FindMember(ms, name, caseSensitive) ==
      if View(ms[0].key, caseSensitive) == View(name, caseSensitive) then 0 else 1 + FindMember(ms[1..], name, caseSensitive)
  {
    hide View;
  }

  lemma {:induction false} OthersWithout(ms: seq<Member>, name: string, caseSensitive: bool)
    requires ViewsDiffer(ms, caseSensitive)
    ensures var i := FindMember(ms, name, caseSensitive); Others(ms, name, caseSensitive) == if i < |ms| then RemoveAt(ms, i) else ms
    decreases |ms|
  {
    hide View;
    hide FindMember;
    if ms != [] {
      var tail := ms[1..];
      OthersWithout(tail, name, caseSensitive);
      FindStep(ms, name, caseSensitive);
      assert ms == [ms[0]] + tail && forall n :: 0 <= n < |tail| ==> tail[n] == ms[n + 1];
      var i := FindMember(tail, name, caseSensitive);
      if View(ms[0].key, caseSensitive) == View(name, caseSensitive) {
        WithoutFirst(ms);
      } else if i < |tail| {
        WithoutLater(ms, i + 1);
      }
    }
  }

  lemma WithoutFirst(ms: seq<Member>)
    requires ms != []
    ensures RemoveAt(ms, 0) == ms[1..]
  {
  }

  lemma WithoutLater(ms: seq<Member>, i: nat)
    requires 0 < i < |ms|
    ensures RemoveAt(ms, i) == [ms[0]] + RemoveAt(ms[1..], i - 1)
  {
    RemoveFromTail(ms, i);
  }

  /** Where names are heeded exactly, these are the members without that name in the map. */
  lemma OthersMeaning(ms: seq<Member>, name: string, x: Json)
    requires UniqueKeys(ms)
    ensures MembersMeaning(Others(ms, name, true)) == MembersMeaning(ms) - {name}
    ensures MembersMeaning(Others(ms, name, true) + [Member(name, x)]) == MembersMeaning(ms)[name := Meaning(x)]
  {
    OthersWithout(ms, name, true);
    var i := FindMember(ms, name, true);
    FindMeaning(ms, name);
    if i < |ms| { RemoveMeaning(ms, i); }
    hide MembersMeaning;
    AppendMeaning(Others(ms, name, true), Member(name, x));
    PutAgain(MembersMeaning(ms), name, Meaning(x));
  }

  /** Section 4.1: the value is under that name, the others are as they were. */
  lemma AddAtName(doc: Json, pos: seq<nat>, name: string, x: Json, caseSensitive: bool)
    requires Addressable(doc, caseSensitive) && IsPosition(doc, pos) && At(doc, pos).Object? && Survives(name)
    ensures ApplyPatch(doc, Compose("add", Below(doc, pos, Encode(name)), Some(x)), caseSensitive) ==
      Patched(0, Put(doc, pos, Object(Others(At(doc, pos).members, name, caseSensitive) + [Member(name, x)])))
  {
    hide ApplyPatch;
    hide Decode;
    hide Survives;
    hide Put;
    hide View;
    SurvivingStays(name);
    PartAddressable(doc, pos, caseSensitive);
    OthersWithout(At(doc, pos).members, name, caseSensitive);
    AddsThere(doc, pos, Encode(name), x, caseSensitive);
  }

  lemma {:induction false} PartAddressable(doc: Json, pos: seq<nat>, caseSensitive: bool)
    requires Addressable(doc, caseSensitive) && IsPosition(doc, pos)
    ensures Addressable(At(doc, pos), caseSensitive)
    decreases |pos|
  {
    if pos != [] { PartAddressable(Children(doc)[pos[0]], pos[1..], caseSensitive); }
  }

  /**
    Sections 4.2 and 4.3: what is removed or replaced must be there. Which member that
    is, is decided ignoring case, so here no two may differ in case only.
   */
  lemma RemoveAtName(doc: Json, pos: seq<nat>, name: string, caseSensitive: bool)
    requires Addressable(doc, caseSensitive) && IsPosition(doc, pos) && At(doc, pos).Object? && Survives(name)
    requires ViewsDiffer(At(doc, pos).members, false)
    ensures var ms := At(doc, pos).members;
      ApplyPatch(doc, Compose("remove", Below(doc, pos, Encode(name)), None), caseSensitive) ==
        if Has(ms, name, false) then Patched(0, Put(doc, pos, Object(Others(ms, name, false)))) else Patched(13, doc)
  {
    hide ApplyPatch;
    hide Decode;
    hide Survives;
    hide Put;
    hide View;
    SurvivingStays(name);
    HasFinds(At(doc, pos).members, name, false);
    OthersWithout(At(doc, pos).members, name, false);
    RemovesThere(doc, pos, Encode(name), caseSensitive);
  }

  lemma ReplaceAtName(doc: Json, pos: seq<nat>, name: string, x: Json, caseSensitive: bool)
    requires Addressable(doc, caseSensitive) && IsPosition(doc, pos) && At(doc, pos).Object? && Survives(name)
    requires ViewsDiffer(At(doc, pos).members, false)
    ensures var ms := At(doc, pos).members;
      ApplyPatch(doc, Compose("replace", Below(doc, pos, Encode(name)), Some(x)), caseSensitive) ==
        if Has(ms, name, false) then Patched(0, Put(doc, pos, Object(Others(ms, name, false) + [Member(name, x)]))) else Patched(13, doc)
  {
    hide ApplyPatch;
    hide Decode;
    hide Survives;
    hide Put;
    hide View;
    hide DetachChild;
    hide AddChild;
    hide Others;
    hide Has;
    SurvivingStays(name);
    ReplacesThere(doc, pos, Encode(name), x, caseSensitive);
    DetachAndAdd(At(doc, pos).members, name, x, caseSensitive);
  }

  lemma DetachAndAdd(ms: seq<Member>, name: string, x: Json, caseSensitive: bool)
    requires ViewsDiffer(ms, false)
    ensures var r := DetachChild(Object(ms), name);
      if Has(ms, name, false) then
        r.Some? && AddChild(r.value.0, name, x, caseSensitive) == (0, Object(Others(ms, name, false) + [Member(name, x)]))
      else r.None?
  {
    hide View;
    HasFinds(ms, name, false);
    OthersWithout(ms, name, false);
    if Has(ms, name, false) { NoneLeft(ms, name, caseSensitive); }
  }

  lemma NoneLeft(ms: seq<Member>, name: string, caseSensitive: bool)
    requires ViewsDiffer(ms, false) && FindMember(ms, name, false) < |ms|
    ensures var rest := RemoveAt(ms, FindMember(ms, name, false)); FindMember(rest, name, caseSensitive) == |rest|
  {
    var i := FindMember(ms, name, false);
    var rest := RemoveAt(ms, i);
    forall n | 0 <= n < |rest|
      ensures View(rest[n].key, caseSensitive) != View(name, caseSensitive)
    {
      assert rest[n] == ms[if n < i then n else n + 1];
    }
  }

  // ----- no such place -----

  /** Nothing can be put below a value that has no members. */
  lemma NoMembers(doc: Json, pos: seq<nat>, token: string, x: Json, caseSensitive: bool)
    requires Addressable(doc, caseSensitive) && IsPosition(doc, pos) && '/' !in token
    requires !At(doc, pos).Array? && !At(doc, pos).Object?
    ensures ApplyPatch(doc, Compose("add", Below(doc, pos, token), Some(x)), caseSensitive) == Patched(9, doc)
    ensures ApplyPatch(doc, Compose("remove", Below(doc, pos, token), None), caseSensitive) == Patched(13, doc)
    ensures ApplyPatch(doc, Compose("replace", Below(doc, pos, token), Some(x)), caseSensitive) == Patched(13, doc)
  {
    hide ApplyPatch;
    hide Decode;
    hide Put;
    AddsThere(doc, pos, token, x, caseSensitive);
    RemovesThere(doc, pos, token, caseSensitive);
    ReplacesThere(doc, pos, token, x, caseSensitive);
  }

  /** Nor where the parent does not exist. */
  lemma NoParent(doc: Json, parent: string, token: string, x: Json, caseSensitive: bool)
    requires Locate(doc, parent, caseSensitive).None? && '/' !in token
    ensures var path := parent + ("/" + token);
      ApplyPatch(doc, Compose("add", path, Some(x)), caseSensitive) == Patched(9, doc) &&
      ApplyPatch(doc, Compose("remove", path, None), caseSensitive) == Patched(13, doc) &&
      ApplyPatch(doc, Compose("replace", path, Some(x)), caseSensitive) == Patched(13, doc)
  {
    hide ApplyPatch;
    hide Locate;
    hide LastSlash;
    var path := parent + ("/" + token);
    RootCut(token);
    CutBelow(parent, "/" + token);
    assert parent + "" == parent;
    AddPatch(doc, path, x, caseSensitive);
    RemovePatch(doc, path, caseSensitive);
    ReplacePatch(doc, path, x, caseSensitive);
  }

  // ----- what a failure leaves behind -----

  /** The operation a patch asks for, if it is one of section 4 of RFC 6902. */
  function Operation(patch: Json, caseSensitive: bool): Option<string> {
    var op := TextOf(MemberOf(patch, "op", caseSensitive));
    if op.Some? && op.value in ["add", "remove", "replace", "move", "copy", "test"] then op else None
  }

  /** A patch that fails leaves the document as it was, unless it has taken something out already. */
  lemma FailureKeeps(doc: Json, patch: Json, caseSensitive: bool)
    ensures var op, r := Operation(patch, caseSensitive), ApplyPatch(doc, patch, caseSensitive);
      r.Patched? && r.status != 0 && (op.Some? ==> op.value !in ["replace", "move", "test"]) ==> r.doc == doc
  {
    hide DetachPath;
    hide Locate;
    hide MemberOf;
    hide Put;
    hide AddChild;
    hide LastSlash;
  }

  /** Which parts a patch must have, and the status that says one is missing. */
  lemma MalformedPatch(doc: Json, ms: seq<Member>, caseSensitive: bool)
    ensures var r := ApplyPatch(doc, Object(ms), caseSensitive);
      var path, op := TextOf(MemberOf(Object(ms), "path", caseSensitive)), Operation(Object(ms), caseSensitive);
      var from := MemberOf(Object(ms), "from", caseSensitive);
      (!Has(ms, "path", caseSensitive) ==> r == Patched(2, doc)) &&
      (path.Some? && op.None? ==> r == Patched(3, doc)) && (!Has(ms, "op", caseSensitive) ==> op.None?) &&
      (path.Some? && op == Some("add") && !Has(ms, "value", caseSensitive) ==> r == Patched(7, doc)) &&
      (path.Some? && op == Some("test") && !Has(ms, "value", caseSensitive) ==> r == Patched(1, doc)) &&
      (path.Some? && (op == Some("move") || op == Some("copy")) && !Has(ms, "from", caseSensitive) ==> r == Patched(4, doc)) &&
      (path.Some? && (op == Some("move") || op == Some("copy")) && from.Some? && !from.value.String? ==> r == Patched(5, doc))
  {
    hide DetachPath;
    hide Locate;
    hide AddAt;
    hide MemberOf;
    hide Has;
    NoMember(ms, "path", caseSensitive);
    NoMember(ms, "op", caseSensitive);
    NoMember(ms, "value", caseSensitive);
    NoMember(ms, "from", caseSensitive);
  }

  lemma NoMember(ms: seq<Member>, name: string, caseSensitive: bool)
    ensures Has(ms, name, caseSensitive) <==> MemberOf(Object(ms), name, caseSensitive).Some?
  {
    hide Has;
    HasFinds(ms, name, caseSensitive);
  }

  lemma {:induction false} FindsAnyCase(ms: seq<Member>, ns: seq<Member>, name: string)
    requires |ms| == |ns| && forall i :: 0 <= i < |ms| ==> Fold(ms[i].key) == Fold(ns[i].key)
    ensures FindMember(ms, name, false) == FindMember(ns, name, false)
    decreases |ms|
  {
    if ms != [] { FindsAnyCase(ms[1..], ns[1..], name); }
  }

  /** The functions that ignore case ignore it in the names of a patch, too. */
  lemma NamesInAnyCase(doc: Json, ms: seq<Member>, ns: seq<Member>)
    requires |ms| == |ns| && forall i :: 0 <= i < |ms| ==> Fold(ms[i].key) == Fold(ns[i].key) && ms[i].val == ns[i].val
    ensures ApplyPatch(doc, Object(ms), false) == ApplyPatch(doc, Object(ns), false)
  {
    hide DetachPath;
    hide Locate;
    hide AddAt;
    hide FindMember;
    FindsAnyCase(ms, ns, "path");
    FindsAnyCase(ms, ns, "op");
    FindsAnyCase(ms, ns, "value");
    FindsAnyCase(ms, ns, "from");
  }

  /** So a replacement without a value fails and has removed what it should have replaced. */
  lemma ReplaceLoses(doc: Json, path: string, caseSensitive: bool)
    requires path != "" && DetachPath(doc, path, caseSensitive).Some?
    ensures ApplyPatch(doc, Compose("replace", path, None), caseSensitive) == Patched(7, DetachPath(doc, path, caseSensitive).value.0)
  {
    hide DetachPath;
    ComposedMembers("replace", path, None, caseSensitive);
  }
}
