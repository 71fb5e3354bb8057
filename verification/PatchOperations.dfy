/**
  The operations of RFC 6902 that generated patches do not use: test, move and
  copy, each in terms of what it is defined by.
 */
module PatchOperations {
  import opened JsonValues
  import opened Members
  import opened Compare
  import opened Pointers
  import opened JsonPatch
  import opened PatchLocality

  function ComposeFrom(op: string, source: string, path: string): Json {
    Object([Member("op", String(op)), Member("path", String(path)), Member("from", String(source))])
  }

  lemma FromMembers(op: string, source: string, path: string, caseSensitive: bool)
    ensures var p := ComposeFrom(op, source, path);
      MemberOf(p, "op", caseSensitive) == Some(String(op)) && MemberOf(p, "path", caseSensitive) == Some(String(path)) &&
      MemberOf(p, "from", caseSensitive) == Some(String(source))
  {
    var ms := ComposeFrom(op, source, path).members;
    PatchNames();
    FindIs(ms, "op", 0, caseSensitive);
    FindIs(ms, "path", 1, caseSensitive);
    FindIs(ms, "from", 2, caseSensitive);
  }

  lemma FromPatch(doc: Json, op: string, source: string, path: string, caseSensitive: bool)
    requires op == "move" || op == "copy"
    ensures ApplyPatch(doc, ComposeFrom(op, source, path), caseSensitive) ==
      ApplyFrom(doc, path, Some(String(source)), op == "move", caseSensitive)
  {
    hide MemberOf;
    hide ComposeFrom;
    hide ApplyFrom;
    hide DetachPath;
    hide AddAt;
    hide Locate;
    FromMembers(op, source, path, caseSensitive);
  }

  lemma TestPatch(doc: Json, path: string, value: Json, caseSensitive: bool)
    ensures var pos := Locate(doc, path, caseSensitive);
      ApplyPatch(doc, Compose("test", path, Some(value)), caseSensitive) ==
      if pos.None? then Patched(1, doc) else
        Patched(if SortedEqual(At(doc, pos.value), value, caseSensitive) then 0 else 1,
                Put(doc, pos.value, Left(At(doc, pos.value), value, caseSensitive).0))
  {
    hide Locate;
    hide Put;
    hide Left;
    hide SortedEqual;
    hide MemberOf;
    hide Compose;
    ComposedMembers("test", path, Some(value), caseSensitive);
  }

  /**
    Section 4.6: a test succeeds exactly if the location exists and holds an equal
    value. It reorders members there, and does not change what the document means.
   */
  lemma TestDecides(doc: Json, path: string, value: Json, caseSensitive: bool)
    requires Unique(doc) && Unique(value)
    requires var pos := Locate(doc, path, caseSensitive);
      pos.Some? ==> caseSensitive || Apart(Meaning(At(doc, pos.value)), Meaning(value))
    ensures var pos, r := Locate(doc, path, caseSensitive), ApplyPatch(doc, Compose("test", path, Some(value)), caseSensitive);
      r.Patched? && r.status == (if pos.Some? && Meaning(At(doc, pos.value)) == Meaning(value) then 0 else 1) &&
      Unique(r.doc) && Meaning(r.doc) == Meaning(doc)
  {
    hide ApplyPatch;
    hide Locate;
    hide Put;
    hide At;
    hide Unique;
    hide Left;
    hide SortedEqual;
    hide Meaning;
    TestPatch(doc, path, value, caseSensitive);
    var pos := Locate(doc, path, caseSensitive);
    if pos.Some? {
      var node := At(doc, pos.value);
      PutMeans(doc, pos.value, node);
      SortedDecidesMeaning(node, value, caseSensitive);
      LeftMeans(node, value, caseSensitive);
      PutMeans(doc, pos.value, Left(node, value, caseSensitive).0);
    }
  }

  lemma ChildMeans(j: Json, i: nat, x: Json)
    requires Unique(j) && i < |Children(j)|
    ensures Unique(Children(j)[i])
    ensures Unique(x) && Meaning(x) == Meaning(Children(j)[i]) ==>
      Unique(WithChild(j, i, x)) && Meaning(WithChild(j, i, x)) == Meaning(j)
  {
    if Unique(x) && Meaning(x) == Meaning(Children(j)[i]) {
      if j.Array? {
        SameItemsMean(j.items, j.items[i := x]);
      } else {
        SameMembersMean(j.members, j.members[i := Member(j.members[i].key, x)]);
      }
    }
  }

  /** What means the same can be put in the place of a node. */
  lemma {:induction false} PutMeans(j: Json, pos: seq<nat>, x: Json)
    requires Unique(j) && IsPosition(j, pos)
    ensures Unique(At(j, pos))
    ensures Unique(x) && Meaning(x) == Meaning(At(j, pos)) ==> Unique(Put(j, pos, x)) && Meaning(Put(j, pos, x)) == Meaning(j)
    decreases |pos|
  {
    if pos != [] {
      var i := pos[0];
      PutMeans(Children(j)[i], pos[1..], x);
      ChildMeans(j, i, Put(Children(j)[i], pos[1..], x));
    }
  }

  /**
    Section 4.5: a copy is the addition of the value found at the source, and fails
    where there is none. The one target that fails is the whole document, which an
    addition would replace.
   */
  lemma CopyIsAdd(doc: Json, source: string, path: string, caseSensitive: bool)
    ensures var found := Locate(doc, source, caseSensitive);
      ApplyPatch(doc, ComposeFrom("copy", source, path), caseSensitive) ==
      if found.None? then Patched(5, doc)
      else if path == "" then Patched(9, doc)
      else ApplyPatch(doc, Compose("add", path, Some(At(doc, found.value))), caseSensitive)
  {
    hide ApplyPatch;
    hide Locate;
    FromPatch(doc, "copy", source, path, caseSensitive);
    var found := Locate(doc, source, caseSensitive);
    if found.Some? {
      NothingAbove(doc, At(doc, found.value), caseSensitive);
      if path != "" { AddPatch(doc, path, At(doc, found.value), caseSensitive); }
    }
  }

  /**
    Section 4.4: a move is a removal of the source and the addition of what was
    removed, and fails where there is nothing to remove.
   */
  lemma MoveIsRemoveThenAdd(doc: Json, source: string, path: string, caseSensitive: bool)
    ensures var detached := DetachPath(doc, source, caseSensitive);
      ApplyPatch(doc, ComposeFrom("move", source, path), caseSensitive) ==
      if detached.None? then Patched(5, doc)
      else if path == "" then Patched(9, detached.value.0)
      else ApplyAll(doc, [Compose("remove", source, None), Compose("add", path, Some(detached.value.1))], caseSensitive)
  {
    FromPatch(doc, "move", source, path, caseSensitive);
    assert source == "" ==> LastSlash(source).None?;
    hide ApplyPatch;
    hide ApplyAll;
    hide DetachPath;
    hide AddAt;
    var detached := DetachPath(doc, source, caseSensitive);
    if detached.Some? {
      var (rest, value) := detached.value;
      NothingAbove(rest, value, caseSensitive);
      RemovePatch(doc, source, caseSensitive);
      if path != "" {
        AddPatch(rest, path, value, caseSensitive);
        TwoPatches(doc, Compose("remove", source, None), Compose("add", path, Some(value)), caseSensitive);
      }
    }
  }

  lemma TwoPatches(doc: Json, first: Json, second: Json, caseSensitive: bool)
    requires ApplyPatch(doc, first, caseSensitive).Patched? && ApplyPatch(doc, first, caseSensitive).status == 0
    ensures ApplyAll(doc, [first, second], caseSensitive) == ApplyPatch(ApplyPatch(doc, first, caseSensitive).doc, second, caseSensitive)
  {
    hide ApplyPatch;
    var doc' := ApplyPatch(doc, first, caseSensitive).doc;
    var r := ApplyPatch(doc', second, caseSensitive);
    assert [first, second][1..] == [second] && [second][1..] == [];
    assert ApplyAll(doc, [first, second], caseSensitive) == ApplyAll(doc', [second], caseSensitive);
    assert ApplyAll(doc', [second], caseSensitive) == if r.RootRemoved? || r.status != 0 then r else ApplyAll(r.doc, [], caseSensitive);
  }

  /** There is no place above the document to add anything to. */
  lemma NothingAbove(doc: Json, value: Json, caseSensitive: bool)
    ensures AddAt(doc, "", value, caseSensitive) == Patched(9, doc)
  {
  }
}
