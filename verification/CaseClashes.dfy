/**
  What names that differ in case only do to the utilities, which ignore case in
  places where they were asked not to.
 */
module CaseClashes {
  import opened CStrings
  import opened JsonValues
  import opened Members
  import opened Compare
  import opened Pointers
  import opened PointerDecoding
  import opened JsonPatch
  import opened MergeValues
  import opened MergePatch
  import opened MergeRoundTrip

  lemma {:induction false} SameView(ms: seq<Member>, name: string)
    ensures FindMember(ms, name, false) <= FindMember(ms, name, true)
    ensures FindMember(ms, name, false) == FindMember(ms, name, true) <==>
      forall j :: 0 <= j < FindMember(ms, name, true) ==> Fold(ms[j].key) != Fold(name)
  {
    var i, i' := FindMember(ms, name, true), FindMember(ms, name, false);
    assert i < |ms| ==> ms[i].key == name;
    assert forall j :: 0 <= j < i' ==> View(ms[j].key, false) != View(name, false);
    assert i' < i ==> View(ms[i'].key, false) == View(name, false);
  }

  /** Looking a child up to detach it ignores case, whatever was asked for. */
  lemma DetachIsExact(ms: seq<Member>, name: string)
    requires UniqueKeys(ms) && FindMember(ms, name, true) < |ms|
    ensures var (i, r) := (FindMember(ms, name, true), DetachChild(Object(ms), name));
      r == Some((Object(RemoveAt(ms, i)), ms[i].val)) <==> forall j :: 0 <= j < i ==> Fold(ms[j].key) != Fold(name)
  {
    var i, i' := FindMember(ms, name, true), FindMember(ms, name, false);
    SameView(ms, name);
    assert ms[i].key == name;
    if i' < i {
      var a, b := RemoveAt(ms, i), RemoveAt(ms, i');
      assert a[i'] == ms[i'] && b[i'] == ms[i' + 1];
      assert ms[i'].key != ms[i' + 1].key;
    }
  }

  lemma {:induction false} AtPut(j: Json, pos: seq<nat>, x: Json)
    requires IsPosition(j, pos)
    ensures IsPosition(Put(j, pos, x), pos) && At(Put(j, pos, x), pos) == x
    decreases |pos|
  {
    if pos != [] {
      var child := Children(j)[pos[0]];
      AtPut(child, pos[1..], x);
      assert Children(Put(j, pos, x))[pos[0]] == Put(child, pos[1..], x);
    }
  }

  /**
    detach_path removes the member that the path names if and only if no earlier
    member of the same object differs from that name in case only.
   */
  lemma DetachPathIsExact(doc: Json, path: string, caseSensitive: bool)
    requires LastSlash(path).Some? && Locate(doc, path[..LastSlash(path).value], caseSensitive).Some?
    requires var parent := At(doc, Locate(doc, path[..LastSlash(path).value], caseSensitive).value);
      parent.Object? && UniqueKeys(parent.members) &&
      FindMember(parent.members, Decode(path[LastSlash(path).value + 1..]), true) < |parent.members|
    ensures var (slash, name) := (LastSlash(path).value, Decode(path[LastSlash(path).value + 1..]));
      var pos := Locate(doc, path[..slash], caseSensitive).value;
      var ms := At(doc, pos).members;
      var i := FindMember(ms, name, true);
      DetachPath(doc, path, caseSensitive) == Some((Put(doc, pos, Object(RemoveAt(ms, i))), ms[i].val)) <==>
      forall j :: 0 <= j < i ==> Fold(ms[j].key) != Fold(name)
  {
    var name := Decode(path[LastSlash(path).value + 1..]);
    var pos := Locate(doc, path[..LastSlash(path).value], caseSensitive).value;
    DetachedFrom(doc, pos, name);
  }

  lemma DetachedFrom(doc: Json, pos: seq<nat>, name: string)
    requires IsPosition(doc, pos)
    requires var parent := At(doc, pos);
      parent.Object? && UniqueKeys(parent.members) && FindMember(parent.members, name, true) < |parent.members|
    ensures var ms := At(doc, pos).members;
      var i, r := FindMember(ms, name, true), DetachChild(At(doc, pos), name);
      r.Some? && Put(doc, pos, r.value.0) == Put(doc, pos, Object(RemoveAt(ms, i))) && r.value.1 == ms[i].val <==>
      forall j :: 0 <= j < i ==> Fold(ms[j].key) != Fold(name)
  {
    hide Put;
    hide Fold;
    var ms := At(doc, pos).members;
    var r := DetachChild(Object(ms), name);
    DetachIsExact(ms, name);
    AtPut(doc, pos, Object(RemoveAt(ms, FindMember(ms, name, true))));
    if r.Some? { AtPut(doc, pos, r.value.0); }
    assert At(doc, pos) == Object(ms);
  }

  const TWO_CASES := Object([Member("A", Number(1)), Member("a", Number(2))])

  /** Asked for "/a", it takes "A" away, even in the case-sensitive functions. */
  lemma DetachesTheOther()
    ensures DetachPath(TWO_CASES, "/a", true) == Some((Object([Member("a", Number(2))]), Number(1)))
  {
    var ms := TWO_CASES.members;
    assert "/a"[..1] == "/" && LastSlash("/a") == Some(0);
    assert "/a"[..0] == "" && "/a"[1..] == "a" && Locate(TWO_CASES, "", true) == Some([]);
    DecodePlain("a");
    assert Fold("A") == "a" && Fold("a") == "a";
    assert FindMember(ms, "a", false) == 0;
    assert RemoveAt(ms, 0) == [Member("a", Number(2))];
  }

  // ----- a merge patch that loses a member -----

  /** Names that strcmp sorts one way, and the order without case the other way or not at all. */
  ghost predicate Crossed(low: string, high: string) {
    Less(low, high) && !Less(Fold(low), Fold(high))
  }

  /** For instance names that differ in case only, or a capital and a small letter before it. */
  lemma CrossedNames()
    ensures Crossed("A", "a") && Crossed("B", "a")
  {
    assert Fold("A") == "a" && Fold("B") == "b" && Fold("a") == "a";
  }

  function Two(low: string, high: string): seq<Member> {
    [Member(high, Number(1)), Member(low, Number(2))]
  }

  function One(low: string): seq<Member> {
    [Member(low, Number(2))]
  }

  function Wrapped(ms: seq<Member>): Json {
    Object([Member("o", Object(ms))])
  }

  lemma MergeTwo(a: Member, b: Member, caseSensitive: bool)
    requires !Before(a, b, caseSensitive)
    ensures Merge([a], [b], caseSensitive) == [b, a]
  {
    hide Before;
    assert [b][1..] == [] && Merge([a], [], caseSensitive) == [a];
    assert Merge([a], [b], caseSensitive) == Cons(b, Merge([a], [b][1..], caseSensitive));
  }

  lemma SortHalves(ms: seq<Member>, caseSensitive: bool)
    ensures |ms| == 1 ==> SortMembers(ms, caseSensitive) == ms
    ensures |ms| == 2 && !Ascending(ms, caseSensitive) ==>
      SortMembers(ms, caseSensitive) == Merge(SortMembers(ms[..1], caseSensitive), SortMembers(ms[1..], caseSensitive), caseSensitive)
  {
    hide Ascending;
    hide Merge;
  }

  lemma SortTwo(a: Member, b: Member, caseSensitive: bool)
    requires !Before(a, b, caseSensitive)
    ensures SortMembers([a, b], caseSensitive) == [b, a]
  {
    hide Before;
    hide Merge;
    hide SortMembers;
    var ms := [a, b];
    assert ms[..1] == [a] && ms[1..] == [b];
    SortHalves([a], caseSensitive);
    SortHalves([b], caseSensitive);
    SortHalves(ms, caseSensitive);
    MergeTwo(a, b, caseSensitive);
  }

  /** The comparison sorts by strcmp first; sorting what it left ignoring case turns the two around again. */
  lemma Sorting(low: string, high: string)
    requires Crossed(low, high)
    ensures var t := Two(low, high);
      SortMembers(t, true) == [t[1], t[0]] && SortMembers([t[1], t[0]], false) == t &&
      SortMembers(One(low), true) == One(low) && SortMembers(One(low), false) == One(low)
  {
    var t := Two(low, high);
    LessAsymmetric(low, high);
    SortTwo(t[0], t[1], true);
    SortTwo(t[1], t[0], false);
  }

  lemma LeftSorted(low: string, high: string)
    requires Crossed(low, high)
    ensures var x, y, t := Object(Two(low, high)), Object(One(low)), Two(low, high);
      !SortedEqual(x, y, true) && Left(x, y, true) == (Object([t[1], t[0]]), Object(One(low)))
  {
    hide SortMembers;
    hide Depth;
    hide LeftMembers;
    hide WalkEqual;
    hide Left;
    LeftAsIs(Number(2), Number(2), true);
    assert SortedEqual(Number(2), Number(2), true);
    var x, y, t := Object(Two(low, high)), Object(One(low)), Two(low, high);
    Sorting(low, high);
    SortThenWalk(x, y, true);
    MembersLeft(x, y, true);
    var p, q := [t[1], t[0]], One(low);
    assert SortMembers(x.members, true) == p && SortMembers(y.members, true) == q;
    assert p[1..] == [t[0]] && q[1..] == [];
    WalkStep(x, p, q, true);
    MembersStep(x, p, q, true);
    WalkStep(x, p[1..], q[1..], true);
    MembersStep(x, p[1..], q[1..], true);
    assert LeftMembers(x, p[1..], q[1..], true) == ([t[0]], []);
    assert LeftMembers(x, p, q, true) == ([t[1]] + [t[0]], [t[1]] + []);
    assert Left(x, y, true) == (Object([t[1]] + [t[0]]), Object([t[1]] + []));
    assert [t[1]] + [t[0]] == [t[1], t[0]] && [t[1]] + [] == One(low);
  }

  function Losing(low: string, high: string): seq<Member> {
    [Member(low, Number(2)), Member(high, Null), Member(low, Null)]
  }

  /**
    Sorted ignoring case, `high` is before `low`; the walk compares with strcmp, where
    it is behind, and so meets `low` twice: it is added and then removed.
   */
  lemma InnerPatch(low: string, high: string)
    requires Crossed(low, high)
    ensures var t := Two(low, high);
      Generated(Object([t[1], t[0]]), Object(One(low)), false) == Some(Object(Losing(low, high)))
  {
    hide SortMembers;
    var x, y := Two(low, high), One(low);
    var have := Object([x[1], x[0]]);
    Sorting(low, high);
    LessAsymmetric(low, high);
    SortedDepth(have.members, false);
    var tail := [x[1]];
    assert WalkDiff(x, y) > 0;
    assert y[1..] == [] && x[1..] == tail && tail[1..] == [];
    assert GeneratedMembers(have, [], [], false) == [];
    assert GeneratedMembers(have, tail, [], false) == [Member(low, Null)] + GeneratedMembers(have, tail[1..], [], false);
    assert GeneratedMembers(have, x, [], false) == [Member(high, Null)] + GeneratedMembers(have, x[1..], [], false);
    assert GeneratedMembers(have, x, y, false) == [y[0]] + GeneratedMembers(have, x, y[1..], false);
    assert GeneratedMembers(have, x, y, false) == Losing(low, high);
  }

  lemma OneMember(u: Json, v: Json, patch: Json)
    requires !SortedEqual(u, v, true) && Generated(Left(u, v, true).0, Left(u, v, true).1, false) == Some(patch)
    ensures Generated(Object([Member("o", u)]), Object([Member("o", v)]), true) == Some(Object([Member("o", patch)]))
  {
    hide SortedEqual;
    hide Left;
    var x, y := [Member("o", u)], [Member("o", v)];
    var parent, r := Object(x), [Member("o", patch)];
    assert x[1..] == [] && y[1..] == [] && WalkDiff(x, y) == 0;
    assert GeneratedMember(parent, x[0], y[0], true) == r;
    assert GeneratedMembers(parent, [], [], true) == [];
    CommonTurn(parent, x, y, true);
    assert r + [] == r;
  }

  lemma OuterPatch(low: string, high: string)
    requires Crossed(low, high)
    ensures Generated(Wrapped(Two(low, high)), Wrapped(One(low)), true) == Some(Object([Member("o", Object(Losing(low, high)))]))
  {
    hide SortedEqual;
    hide Left;
    hide Generated;
    LeftSorted(low, high);
    InnerPatch(low, high);
    OneMember(Object(Two(low, high)), Object(One(low)), Object(Losing(low, high)));
  }

  lemma InnerMerge(low: string, high: string)
    requires low != high
    ensures Merged(Some(Object(Two(low, high))), Object(Losing(low, high)), true) == Object([])
  {
    var t, ps := Two(low, high), Losing(low, high);
    var parent := Object(ps);
    assert FindMember(t, low, true) == 1 && RemoveAt(t, 1) == [t[0]] by { assert t[1..][0] == t[1]; }
    assert MergedMember(t, parent, ps[0], true) == t;
    assert FindMember(t, high, true) == 0 && RemoveAt(t, 0) == [t[1]];
    assert MergedMember(t, parent, ps[1], true) == [t[1]];
    assert FindMember([t[1]], low, true) == 0 && RemoveAt([t[1]], 0) == [];
    assert MergedMember([t[1]], parent, ps[2], true) == [];
    assert ps[1..] == [ps[1], ps[2]] && ps[1..][1..] == [ps[2]] && [ps[2]][1..] == [];
    assert MergedMembers([], parent, [], true) == [];
    assert MergedMembers([t[1]], parent, [ps[2]], true) == [];
    assert MergedMembers(t, parent, ps[1..], true) == [];
    assert MergedMembers(t, parent, ps, true) == [];
  }

  lemma OuterMerge(have: Json, patch: Json)
    requires patch.Object?
    ensures Merged(Some(Object([Member("o", have)])), Object([Member("o", patch)]), true) ==
      Object([Member("o", Merged(Some(have), patch, true))])
  {
    var t, ps := [Member("o", have)], [Member("o", patch)];
    assert FindMember(t, "o", true) == 0 && RemoveAt(t, 0) == [] && ps[1..] == [];
    var inner := Member("o", Merged(Some(have), patch, true));
    assert [] + [inner] == [inner];
    assert MergedMember(t, Object(ps), ps[0], true) == [inner];
    assert MergedMembers([inner], Object(ps), [], true) == [inner];
  }

  lemma WrappedMeaning(ms: seq<Member>)
    ensures Meaning(Wrapped(ms)) == VObject(map["o" := VObject(MembersMeaning(ms))])
  {
    var w := [Member("o", Object(ms))];
    assert w[1..] == [];
    assert MembersMeaning([]) == map[];
    assert MembersMeaning(w) == map["o" := Meaning(Object(ms))];
  }

  lemma InnerMeanings(low: string, high: string)
    requires low != high
    ensures MembersMeaning([]) == map[] && MembersMeaning(One(low)) == map[low := VNumber(2)]
    ensures MembersMeaning(Two(low, high)) == map[low := VNumber(2), high := VNumber(1)]
  {
    var t, o := Two(low, high), One(low);
    assert o[1..] == [] && t[1..] == o;
    assert MembersMeaning([]) == map[];
    assert MembersMeaning(o) == map[low := VNumber(2)];
  }

  lemma Expressed(low: string, high: string)
    requires low != high
    ensures Expressible(Meaning(Wrapped(Two(low, high))), Meaning(Wrapped(One(low))))
  {
    WrappedMeaning(Two(low, high));
    WrappedMeaning(One(low));
    InnerMeanings(low, high);
    var p, q := VObject(map[low := VNumber(2), high := VNumber(1)]), VObject(map[low := VNumber(2)]);
    assert Expressible(p, q);
  }

  /**
    So cJSONUtils_GenerateMergePatchCaseSensitive gives, for any two such names, a
    patch that leaves nothing of what was wanted, though a merge patch could express it.
   */
  lemma MergePatchCaseClash(low: string, high: string)
    requires Crossed(low, high)
    ensures var (have, want) := (Wrapped(Two(low, high)), Wrapped(One(low)));
      var patch := Generated(have, want, true);
      patch.Some? && Expressible(Meaning(have), Meaning(want)) && !Mergeable(have, want, true) &&
      Meaning(Merged(Some(have), patch.value, true)) == VObject(map["o" := VObject(map[])]) != Meaning(want)
  {
    hide Generated;
    hide Merged;
    hide Expressible;
    hide Mergeable;
    hide Wrapped;
    LessAsymmetric(low, high);
    var have, want := Wrapped(Two(low, high)), Wrapped(One(low));
    OuterPatch(low, high);
    InnerMerge(low, high);
    WrappedMerge(low, high);
    Expressed(low, high);
    WrappedMeaning([]);
    WrappedMeaning(One(low));
    InnerMeanings(low, high);
    var p, q: map<string, Value> := map["o" := VObject(map[])], map["o" := VObject(map[low := VNumber(2)])];
    assert p["o"] != q["o"] by { assert map[low := VNumber(2)] != map[] by { assert low in map[low := VNumber(2)]; } }
    WrappedUnique(low, high);
    MergePatchRoundTrip(have, want, have, true);
  }

  lemma WrappedMerge(low: string, high: string)
    requires low != high
    ensures Merged(Some(Wrapped(Two(low, high))), Object([Member("o", Object(Losing(low, high)))]), true) == Wrapped([])
  {
    hide Merged;
    InnerMerge(low, high);
    OuterMerge(Object(Two(low, high)), Object(Losing(low, high)));
  }

  lemma WrappedUnique(low: string, high: string)
    requires low != high
    ensures Unique(Wrapped(Two(low, high))) && Unique(Wrapped(One(low)))
  {
    var t := Two(low, high);
    assert t[0].key == high && t[1].key == low && Unique(t[0].val) && Unique(t[1].val);
    assert Unique(Object(t)) && Unique(Object(One(low)));
    var a, b := [Member("o", Object(t))], [Member("o", Object(One(low)))];
    assert Unique(a[0].val) && Unique(b[0].val);
  }

  // ----- and one that does not -----

  function Changed(low: string, high: string): seq<Member> {
    [Member(low, Number(2)), Member(high, Number(3))]
  }

  /** Whatever order the two objects came in, the comparison has left them in the same one. */
  lemma BothSorted(low: string, high: string)
    requires Crossed(low, high)
    ensures var t, c := Two(low, high), Changed(low, high);
      var x, y := Object(t), Object(c);
      !SortedEqual(x, y, true) && Left(x, y, true) == (Object([t[1], t[0]]), Object(c)) &&
      SortMembers([t[1], t[0]], false) == t && SortMembers(c, false) == [c[1], c[0]]
  {
    hide SortMembers;
    hide Depth;
    hide LeftMembers;
    hide WalkEqual;
    hide Left;
    hide SortedEqual;
    hide Less;
    hide Fold;
    var t, c := Two(low, high), Changed(low, high);
    var x, y := Object(t), Object(c);
    Sorting(low, high);
    SortTwo(c[0], c[1], false);
    AlreadySorted(c);
    Numbers(true);
    LeftAsIs(Number(2), Number(2), true);
    LeftAsIs(Number(1), Number(3), true);
    SortThenWalk(x, y, true);
    MembersLeft(x, y, true);
    var p := [t[1], t[0]];
    assert SortMembers(x.members, true) == p && SortMembers(y.members, true) == c;
    assert p[1..] == [t[0]] && c[1..] == [c[1]];
    WalkStep(x, p, c, true);
    MembersStep(x, p, c, true);
    WalkStep(x, p[1..], c[1..], true);
    MembersStep(x, p[1..], c[1..], true);
    assert [t[0]][1..] == [] && [c[1]][1..] == [] && [t[0]] + [] == [t[0]] && [c[1]] + [] == [c[1]];
    assert LeftMembers(x, p[1..], c[1..], true) == ([t[0]], [c[1]]);
    assert LeftMembers(x, p, c, true) == ([t[1]] + [t[0]], [c[0]] + [c[1]]);
    assert Left(x, y, true) == (Object([t[1]] + [t[0]]), Object([c[0]] + [c[1]]));
    assert [t[1]] + [t[0]] == p && [c[0]] + [c[1]] == c;
  }

  lemma AlreadySorted(ms: seq<Member>)
    requires |ms| == 2 && Before(ms[0], ms[1], true)
    ensures SortMembers(ms, true) == ms
  {
    assert Ascending(ms, true);
  }

  lemma BothMet(a: seq<Member>, b: seq<Member>)
    requires |a| == 2 && |b| == 2 && a[0].key == b[0].key && a[1].key == b[1].key && a[0].key != a[1].key
    ensures FateOf(a, b, a[0].key).Met? && FateOf(a, b, a[1].key).Met?
  {
    assert WalkDiff(a, b) == 0 && WalkDiff(a[1..], b[1..]) == 0;
    assert a[1..][0].key == b[1..][0].key == a[1].key;
  }

  /** Numbers that the walk meets can be merged, equal or not. */
  lemma NumberMet(have: Json, want: Json, m: Member)
    requires have.Object? && want.Object? && m.val.Number?
    requires var u := Lookup(have.members, m.key); u.Some? && u.value.Number?
    requires FateOf(SortMembers(have.members, false), SortMembers(want.members, false), m.key).Met?
    ensures NameMergeable(have, want, m, false)
  {
    hide FateOf;
    hide SortMembers;
    hide FindMember;
    var u := Lookup(have.members, m.key).value;
    LeftAsIs(u, m.val, false);
    hide Left;
    NameCases(have, want, m, false);
  }

  lemma InnerMergeable(low: string, high: string)
    requires Crossed(low, high)
    ensures var t := Two(low, high); Mergeable(Object([t[1], t[0]]), Object(Changed(low, high)), false)
  {
    hide SortMembers;
    hide FateOf;
    hide NameMergeable;
    hide Lookup;
    hide Less;
    hide Fold;
    var t, c := Two(low, high), Changed(low, high);
    var p := [t[1], t[0]];
    LessAsymmetric(low, high);
    BothSorted(low, high);
    BothMet(t, [c[1], c[0]]);
    HoldsBoth(p);
    NumberMet(Object(p), Object(c), c[0]);
    NumberMet(Object(p), Object(c), c[1]);
  }

  lemma HoldsBoth(ms: seq<Member>)
    requires |ms| == 2 && ms[0].key != ms[1].key
    ensures Lookup(ms, ms[0].key) == Some(ms[0].val) && Lookup(ms, ms[1].key) == Some(ms[1].val)
  {
    LookupAt(ms, 0);
    LookupAt(ms, 1);
  }

  lemma Numbers(caseSensitive: bool)
    ensures SortedEqual(Number(2), Number(2), caseSensitive) && !SortedEqual(Number(1), Number(3), caseSensitive)
  {
  }

  /**
    With the same names in both inner objects the walk meets them all, in whatever
    order the objects hold them, since the comparison has sorted both before.
   */
  lemma SameNamesMerge(low: string, high: string)
    requires Crossed(low, high)
    ensures var (have, want) := (Wrapped(Two(low, high)), Wrapped(Changed(low, high)));
      Meaning(Updated(have, Generated(have, want, true), true)) == Meaning(want)
  {
    hide Generated;
    hide Updated;
    hide Left;
    hide SortedEqual;
    hide SortMembers;
    LessAsymmetric(low, high);
    var u, v := Object(Two(low, high)), Object(Changed(low, high));
    var have, want := Wrapped(Two(low, high)), Wrapped(Changed(low, high));
    BothSorted(low, high);
    InnerMergeable(low, high);
    OuterMet(u, v);
    assert ValueMergeable(u, v, true);
    NameCases(have, want, Member("o", v), true);
    assert Mergeable(have, want, true);
    WrappedUnique(low, high);
    assert Unique(want) by { ChangedUnique(low, high); }
    MergePatchRoundTrip(have, want, have, true);
  }

  lemma OuterMet(u: Json, v: Json)
    ensures var x, y := [Member("o", u)], [Member("o", v)];
      FateOf(SortMembers(x, true), SortMembers(y, true), "o").Met? && Lookup(x, "o") == Some(u)
  {
    var x, y := [Member("o", u)], [Member("o", v)];
    assert WalkDiff(x, y) == 0;
  }

  lemma ChangedUnique(low: string, high: string)
    requires low != high
    ensures Unique(Wrapped(Changed(low, high)))
  {
    var c := Changed(low, high);
    assert c[0].key == low && c[1].key == high && Unique(c[0].val) && Unique(c[1].val);
    assert Unique(Object(c));
    var a := [Member("o", Object(c))];
    assert Unique(a[0].val);
  }
}
