/**
  When a generated merge patch leads from `have` to `want`, for any two trees with
  unique names: the walk may part common names, and then the patch can name one
  twice, so everything here follows one name through the patch in order.
 */
module MergeRoundTrip {
  import opened CStrings
  import opened JsonValues
  import opened Members
  import opened Compare
  import opened MergeValues
  import opened MergePatch

  // ----- one name through a patch -----

  /** What a patch member of some name makes of what the target has under it. */
  function MergedValue(now: Option<Json>, patch: Json, caseSensitive: bool): Option<Json> {
    if patch.Null? then None else Some(Merged(now, patch, caseSensitive))
  }

  function Track(now: Option<Json>, ps: seq<Member>, k: string, caseSensitive: bool): Option<Json>
    decreases |ps|
  {
    if ps == [] then now else
      Track(if ps[0].key == k then MergedValue(now, ps[0].val, caseSensitive) else now, ps[1..], k, caseSensitive)
  }

  lemma {:induction false} TrackConcat(now: Option<Json>, a: seq<Member>, b: seq<Member>, k: string, caseSensitive: bool)
    ensures Track(now, a + b, k, caseSensitive) == Track(Track(now, a, k, caseSensitive), b, k, caseSensitive)
    decreases |a|
  {
    if a == [] {
      assert a + b == b;
    } else {
      assert (a + b)[0] == a[0] && (a + b)[1..] == a[1..] + b;
      TrackConcat(if a[0].key == k then MergedValue(now, a[0].val, caseSensitive) else now, a[1..], b, k, caseSensitive);
    }
  }

  lemma DetachedLookup(t: seq<Member>, name: string, k: string, ks: iset<string>, caseSensitive: bool)
    requires Named(t, ks) && name in ks && (caseSensitive || FoldInjective(ks))
    ensures var (detached, rest) := Detached(t, name, caseSensitive);
      Named(rest, ks) && detached == Lookup(t, name) && Lookup(rest, k) == if k == name then None else Lookup(t, k)
  {
    FindFolded(t, name, ks, caseSensitive);
    var i := FindMember(t, name, true);
    if i < |t| {
      RemoveUnique(t, i);
      LookupWithout(t, i, k);
    }
  }

  lemma MergedMemberLookup(t: seq<Member>, parent: Json, p: Member, k: string, ks: iset<string>, caseSensitive: bool)
    requires Named(t, ks) && p.key in ks && (caseSensitive || FoldInjective(ks)) && Depth(p.val) < Depth(parent)
    ensures var r := MergedMember(t, parent, p, caseSensitive);
      Named(r, ks) &&
      Lookup(r, k) == if k == p.key then MergedValue(Lookup(t, k), p.val, caseSensitive) else Lookup(t, k)
  {
    hide Lookup;
    hide Detached;
    hide Merged;
    DetachedLookup(t, p.key, k, ks, caseSensitive);
    DetachedLookup(t, p.key, p.key, ks, caseSensitive);
    var (detached, rest) := Detached(t, p.key, caseSensitive);
    if !p.val.Null? {
      LookupAppended(rest, Member(p.key, Merged(detached, p.val, caseSensitive)), k);
    }
  }

  /** Under each name, the merged object holds what the patch members of that name make of it. */
  lemma {:induction false} MergedLookup(t: seq<Member>, parent: Json, ps: seq<Member>, k: string, ks: iset<string>, caseSensitive: bool)
    requires forall i :: 0 <= i < |ps| ==> Depth(ps[i].val) < Depth(parent)
    requires Named(t, ks) && (forall i :: 0 <= i < |ps| ==> ps[i].key in ks) && (caseSensitive || FoldInjective(ks))
    ensures var r := MergedMembers(t, parent, ps, caseSensitive);
      Named(r, ks) && Lookup(r, k) == Track(Lookup(t, k), ps, k, caseSensitive)
    decreases |ps|
  {
    hide Lookup;
    hide MergedMember;
    hide Merged;
    if ps != [] {
      MergedMemberLookup(t, parent, ps[0], k, ks, caseSensitive);
      MergedLookup(MergedMember(t, parent, ps[0], caseSensitive), parent, ps[1..], k, ks, caseSensitive);
    }
  }

  // ----- the generated patch, name by name -----

  lemma {:induction false} FateInSecond(x: seq<Member>, y: seq<Member>, k: string)
    requires UniqueKeys(x) && UniqueKeys(y) && Lookup(x, k).None?
    ensures FateOf(x, y, k) == if Lookup(y, k).Some? then Added else Absent
    decreases |x| + |y|
  {
    if x != [] || y != [] {
      var diff := WalkDiff(x, y);
      Heads(x, k);
      Heads(y, k);
      hide Lookup;
      hide Less;
      FateInSecond(if diff <= 0 then x[1..] else x, if diff >= 0 then y[1..] else y, k);
    }
  }

  lemma {:induction false} FateInFirst(x: seq<Member>, y: seq<Member>, k: string)
    requires UniqueKeys(x) && UniqueKeys(y) && Lookup(x, k).Some? && Lookup(y, k).None?
    ensures FateOf(x, y, k).Removed?
    decreases |x| + |y|
  {
    var diff := WalkDiff(x, y);
    Heads(x, k);
    Heads(y, k);
    hide Lookup;
    hide Less;
    if diff > 0 || x[0].key != k {
      FateInFirst(if diff <= 0 then x[1..] else x, if diff >= 0 then y[1..] else y, k);
    }
  }

  /** What a name both objects have turns into when the walk meets it. */
  function MetValue(now: Option<Json>, u: Json, v: Json, generate: bool, caseSensitive: bool): Option<Json> {
    if SortedEqual(u, v, generate) then now else
      var left := Left(u, v, generate);
      var patch := Generated(left.0, left.1, false);
      if patch.None? then now else MergedValue(now, patch.value, caseSensitive)
  }

  /** What merging makes of a name, going by its fate in the walk over u's and v's objects. */
  function FateValue(fate: Fate, now: Option<Json>, u: Option<Json>, v: Option<Json>, generate: bool, caseSensitive: bool): Option<Json> {
    match fate
    case Removed | Lost => None
    case Added => if v.Some? then MergedValue(now, v.value, caseSensitive) else now
    case Replaced => if v.Some? then MergedValue(None, v.value, caseSensitive) else None
    case Met => if u.Some? && v.Some? then MetValue(now, u.value, v.value, generate, caseSensitive) else now
    case Absent => now
  }

  lemma TrackCons(now: Option<Json>, p: Member, rest: seq<Member>, k: string, caseSensitive: bool)
    ensures Track(now, [p] + rest, k, caseSensitive) ==
      Track(if p.key == k then MergedValue(now, p.val, caseSensitive) else now, rest, k, caseSensitive)
  {
    assert ([p] + rest)[0] == p && ([p] + rest)[1..] == rest;
  }

  /** The turn that emits a removal. */
  lemma SurplusTrack(x: seq<Member>, y: seq<Member>, now: Option<Json>, rest: seq<Member>, k: string,
                     generate: bool, caseSensitive: bool)
    requires UniqueKeys(x) && UniqueKeys(y) && x != [] && WalkDiff(x, y) < 0
    requires var now' := if x[0].key == k then None else now;
      Track(now', rest, k, caseSensitive) ==
      FateValue(FateOf(x[1..], y, k), now', Lookup(x[1..], k), Lookup(y, k), generate, caseSensitive)
    ensures Track(now, [Member(x[0].key, Null)] + rest, k, caseSensitive) ==
      FateValue(FateOf(x, y, k), now, Lookup(x, k), Lookup(y, k), generate, caseSensitive)
  {
    Heads(x, k);
    hide Lookup;
    hide Less;
    hide MetValue;
    hide Merged;
    TrackCons(now, Member(x[0].key, Null), rest, k, caseSensitive);
    if x[0].key == k { FateInSecond(x[1..], y, k); }
  }

  /** The turn that emits an addition. */
  lemma MissingTrack(x: seq<Member>, y: seq<Member>, now: Option<Json>, rest: seq<Member>, k: string,
                     generate: bool, caseSensitive: bool)
    requires UniqueKeys(x) && UniqueKeys(y) && y != [] && WalkDiff(x, y) > 0
    requires var now' := if y[0].key == k then MergedValue(now, y[0].val, caseSensitive) else now;
      Track(now', rest, k, caseSensitive) ==
      FateValue(FateOf(x, y[1..], k), now', Lookup(x, k), Lookup(y[1..], k), generate, caseSensitive)
    ensures Track(now, [y[0]] + rest, k, caseSensitive) ==
      FateValue(FateOf(x, y, k), now, Lookup(x, k), Lookup(y, k), generate, caseSensitive)
  {
    Heads(y, k);
    hide Lookup;
    hide Less;
    hide MetValue;
    hide Merged;
    TrackCons(now, y[0], rest, k, caseSensitive);
    if y[0].key == k {
      if Lookup(x, k).Some? { FateInFirst(x, y[1..], k); } else { FateInSecond(x, y[1..], k); }
    }
  }

  lemma MetTrack(parent: Json, x: Member, y: Member, now: Option<Json>, rest: seq<Member>, k: string,
                 generate: bool, caseSensitive: bool)
    requires x.key == y.key && Depth(x.val) < Depth(parent)
    ensures Track(now, GeneratedMember(parent, x, y, generate) + rest, k, caseSensitive) ==
      Track(if x.key == k then MetValue(now, x.val, y.val, generate, caseSensitive) else now, rest, k, caseSensitive)
  {
    hide Merged;
    hide SortedEqual;
    hide Generated;
    hide Track;
    var step := GeneratedMember(parent, x, y, generate);
    if step == [] {
      assert step + rest == rest;
    } else {
      assert step == [step[0]];
      TrackCons(now, step[0], rest, k, caseSensitive);
    }
  }

  /** The turn at a name both lists begin with. */
  lemma CommonTrack(parent: Json, x: seq<Member>, y: seq<Member>, now: Option<Json>, rest: seq<Member>, k: string,
                    generate: bool, caseSensitive: bool)
    requires UniqueKeys(x) && UniqueKeys(y) && x != [] && y != [] && x[0].key == y[0].key && Depth(x[0].val) < Depth(parent)
    requires var now' := if x[0].key == k then MetValue(now, x[0].val, y[0].val, generate, caseSensitive) else now;
      Track(now', rest, k, caseSensitive) ==
      FateValue(FateOf(x[1..], y[1..], k), now', Lookup(x[1..], k), Lookup(y[1..], k), generate, caseSensitive)
    ensures Track(now, GeneratedMember(parent, x[0], y[0], generate) + rest, k, caseSensitive) ==
      FateValue(FateOf(x, y, k), now, Lookup(x, k), Lookup(y, k), generate, caseSensitive)
  {
    Heads(x, k);
    Heads(y, k);
    hide Lookup;
    MetTrack(parent, x[0], y[0], now, rest, k, generate, caseSensitive);
    hide Track;
    hide GeneratedMember;
    hide MetValue;
    hide MergedValue;
    if x[0].key == k { FateInSecond(x[1..], y[1..], k); }
  }

  /** The generated patch does to each name what its fate says. */
  lemma {:induction false} GeneratedTrack(parent: Json, x: seq<Member>, y: seq<Member>, now: Option<Json>, k: string,
                                          generate: bool, caseSensitive: bool)
    requires forall i :: 0 <= i < |x| ==> Depth(x[i].val) < Depth(parent)
    requires UniqueKeys(x) && UniqueKeys(y)
    ensures Track(now, GeneratedMembers(parent, x, y, generate), k, caseSensitive) ==
      FateValue(FateOf(x, y, k), now, Lookup(x, k), Lookup(y, k), generate, caseSensitive)
    decreases |x| + |y|
  {
    if x == [] && y == [] { return; }
    hide Track;
    hide FateValue;
    hide FateOf;
    hide Lookup;
    hide Less;
    hide GeneratedMember;
    hide MergedValue;
    hide MetValue;
    var diff := WalkDiff(x, y);
    if diff < 0 {
      GeneratedTrack(parent, x[1..], y, if x[0].key == k then None else now, k, generate, caseSensitive);
      SurplusTrack(x, y, now, GeneratedMembers(parent, x[1..], y, generate), k, generate, caseSensitive);
    } else if diff > 0 {
      GeneratedTrack(parent, x, y[1..], if y[0].key == k then MergedValue(now, y[0].val, caseSensitive) else now, k, generate, caseSensitive);
      MissingTrack(x, y, now, GeneratedMembers(parent, x, y[1..], generate), k, generate, caseSensitive);
    } else {
      GeneratedTrack(parent, x[1..], y[1..],
                     if x[0].key == k then MetValue(now, x[0].val, y[0].val, generate, caseSensitive) else now,
                     k, generate, caseSensitive);
      CommonTrack(parent, x, y, now, GeneratedMembers(parent, x[1..], y[1..], generate), k, generate, caseSensitive);
    }
  }

  // ----- when the patch leads to what was wanted -----

  /** A value that merging into nothing gives unchanged. */
  predicate Fresh(v: Json) {
    !v.Null? && NoNullMember(Meaning(v))
  }

  /**
    What a caller can check of two trees beforehand: every wanted name that both
    have is met by the walk, or else removed before it is added; what is met can be
    merged in turn; and what is added holds no null member.
   */
  predicate Mergeable(have: Json, want: Json, caseSensitive: bool)
    decreases Depth(have), 1
  {
    if !have.Object? || !want.Object? then NoNullMember(Meaning(want)) else
      forall j :: 0 <= j < |want.members| ==> NameMergeable(have, want, want.members[j], caseSensitive)
  }

  predicate NameMergeable(have: Json, want: Json, m: Member, caseSensitive: bool)
    requires have.Object? && want.Object?
    decreases Depth(have), 0
  {
    var i := FindMember(have.members, m.key, true);
    if i == |have.members| then Fresh(m.val) else
      match FateOf(SortMembers(have.members, caseSensitive), SortMembers(want.members, caseSensitive), m.key)
      case Met => ValueMergeable(have.members[i].val, m.val, caseSensitive)
      case Replaced => Fresh(m.val)
      case _ => false
  }

  /** Two values that the walk meets: found equal, or merged as the comparison leaves them sorted. */
  predicate ValueMergeable(u: Json, v: Json, caseSensitive: bool)
    decreases Depth(u), 2
  {
    if SortedEqual(u, v, caseSensitive) then Meaning(u) == Meaning(v) else
      var left := Left(u, v, caseSensitive);
      !v.Null? && Mergeable(left.0, left.1, false)
  }

  /** `have` after merging the patch; no patch leaves it as it is. */
  function Updated(have: Json, patch: Option<Json>, caseSensitive: bool): Json {
    if patch.None? then have else Merged(Some(have), patch.value, caseSensitive)
  }

  /** No two names that meet differ in case only, neither in the two trees nor inside what is added. */
  ghost predicate NamesApart(have: Value, want: Value) {
    Apart(have, want) && MergeApart(None, want)
  }

  lemma MergedFresh(now: Option<Json>, v: Json, caseSensitive: bool)
    requires Unique(v) && (now.Some? ==> !now.value.Object? && Unique(now.value))
    requires caseSensitive || MergeApart(None, Meaning(v))
    ensures Meaning(Merged(now, v, caseSensitive)) == Meaning(v) <==> NoNullMember(Meaning(v))
    ensures OptMeaning(MergedValue(now, v, caseSensitive)) == Some(Meaning(v)) <==> Fresh(v)
  {
    hide Unique;
    MergedMeaning(now, v, caseSensitive);
    MergeIntoNothing(OptMeaning(now), Meaning(v));
  }

  lemma {:induction false} FateInBoth(x: seq<Member>, y: seq<Member>, k: string)
    requires UniqueKeys(x) && UniqueKeys(y) && Lookup(x, k).Some? && Lookup(y, k).Some?
    ensures var fate := FateOf(x, y, k); fate.Met? || fate.Replaced? || fate.Lost?
    decreases |x| + |y|
  {
    var diff := WalkDiff(x, y);
    Heads(x, k);
    Heads(y, k);
    hide Lookup;
    hide Less;
    if (diff <= 0 ==> x[0].key != k) && (diff >= 0 ==> y[0].key != k) {
      FateInBoth(if diff <= 0 then x[1..] else x, if diff >= 0 then y[1..] else y, k);
    }
  }

  lemma LookupMeaning(ms: seq<Member>, k: string)
    ensures OptMeaning(Lookup(ms, k)) == Under(MembersMeaning(ms), k)
  {
    FindMeaning(ms, k);
  }

  lemma {:induction false} GeneratedNamed(parent: Json, x: seq<Member>, y: seq<Member>, ks: iset<string>, generate: bool)
    requires forall i :: 0 <= i < |x| ==> Depth(x[i].val) < Depth(parent)
    requires Named(x, ks) && Named(y, ks)
    ensures var r := GeneratedMembers(parent, x, y, generate); forall i :: 0 <= i < |r| ==> r[i].key in ks
    decreases |x| + |y|
  {
    hide Less;
    hide SortedEqual;
    hide Generated;
    hide Left;
    if x != [] || y != [] {
      var diff := WalkDiff(x, y);
      var x', y' := if diff <= 0 then x[1..] else x, if diff >= 0 then y[1..] else y;
      GeneratedNamed(parent, x', y', ks, generate);
      var step := if diff < 0 then [Member(x[0].key, Null)] else if diff > 0 then [y[0]] else GeneratedMember(parent, x[0], y[0], generate);
      assert GeneratedMembers(parent, x, y, generate) == step + GeneratedMembers(parent, x', y', generate);
    }
  }

  lemma NamedAlike(a: seq<Member>, b: seq<Member>, ks: iset<string>)
    requires Named(a, ks) && UniqueKeys(b) && MembersMeaning(a) == MembersMeaning(b)
    ensures Named(b, ks)
  {
    forall k | k in MembersMeaning(b)
      ensures k in ks
    {
      FindMeaning(a, k);
    }
    NamedBy(b, ks);
  }

  lemma MembersAreBelow(ms: seq<Member>)
    ensures forall i :: 0 <= i < |ms| ==> Depth(ms[i].val) < Depth(Object(ms))
  {
  }

  lemma SortedNamed(ms: seq<Member>, ks: iset<string>, caseSensitive: bool)
    requires Named(ms, ks)
    ensures Named(SortMembers(ms, caseSensitive), ks)
  {
    var r := SortMembers(ms, caseSensitive);
    PermutedKeys(ms, r);
    SameMembers(ms, r);
    assert forall i :: 0 <= i < |r| ==> r[i] in ms;
  }

  /** The updated object, name by name, when the patch is applied to another tree that means the same. */
  lemma UpdatedLookup(now: Json, have: Json, want: Json, k: string, generate: bool, caseSensitive: bool)
    requires now.Object? && have.Object? && want.Object?
    requires UniqueKeys(now.members) && UniqueKeys(have.members) && UniqueKeys(want.members)
    requires MembersMeaning(now.members) == MembersMeaning(have.members)
    requires caseSensitive || FoldInjective(KeysOf(MembersMeaning(have.members), MembersMeaning(want.members)))
    ensures var r := Updated(now, Generated(have, want, generate), caseSensitive);
      var fate := FateOf(SortMembers(have.members, generate), SortMembers(want.members, generate), k);
      var n, u, v := Lookup(now.members, k), Lookup(have.members, k), Lookup(want.members, k);
      r.Object? && Lookup(r.members, k) == FateValue(fate, n, u, v, generate, caseSensitive)
  {
    hide Lookup;
    hide FateOf;
    hide FateValue;
    hide SortMembers;
    hide MergedMembers;
    hide Depth;
    hide MembersMeaning;
    hide FoldInjective;
    var ks := PairNames(have.members, want.members, caseSensitive);
    NamedAlike(have.members, now.members, ks);
    var x, y := SortMembers(have.members, generate), SortMembers(want.members, generate);
    SortedDepth(have.members, generate);
    SortedNamed(have.members, ks, generate);
    SortedNamed(want.members, ks, generate);
    SortedLookup(have.members, k, generate);
    SortedLookup(want.members, k, generate);
    GeneratedNamed(have, x, y, ks, generate);
    var ms := GeneratedMembers(have, x, y, generate);
    GeneratedTrack(have, x, y, Lookup(now.members, k), k, generate, caseSensitive);
    MembersAreBelow(ms);
    MergedLookup(now.members, Object(ms), ms, k, ks, caseSensitive);
  }

  lemma {:induction false} NameRoundTrip(now: Json, have: Json, want: Json, k: string, generate: bool, caseSensitive: bool)
    requires now.Object? && have.Object? && want.Object? && Unique(now) && Unique(have) && Unique(want)
    requires Meaning(now) == Meaning(have) && (caseSensitive || NamesApart(Meaning(have), Meaning(want)))
    ensures var r := Updated(now, Generated(have, want, generate), caseSensitive);
      var v := Lookup(want.members, k);
      r.Object? && (OptMeaning(Lookup(r.members, k)) == OptMeaning(v) <==>
        (v.Some? ==> NameMergeable(have, want, Member(k, v.value), generate)))
    decreases Depth(have), 0
  {
    hide Lookup;
    hide FateOf;
    hide SortMembers;
    hide Updated;
    hide NameMergeable;
    hide ValueMergeable;
    hide SortedEqual;
    hide MetValue;
    hide Merged;
    hide MembersMeaning;
    hide Generated;
    hide Unique;
    hide NamesApart;
    var n, u, v := Lookup(now.members, k), Lookup(have.members, k), Lookup(want.members, k);
    ObjectFacts(now, have, want, k, caseSensitive);
    UpdatedLookup(now, have, want, k, generate, caseSensitive);
    FateHere(have, want, k, generate);
    if v.Some? {
      NameCases(have, want, Member(k, v.value), generate);
      MergedFresh(None, v.value, caseSensitive);
      if u.Some? { ValueRoundTrip(n.value, u.value, v.value, generate, caseSensitive); }
    }
  }

  /** What holds of the three trees holds of what they have under a name. */
  lemma ObjectFacts(now: Json, have: Json, want: Json, k: string, caseSensitive: bool)
    requires now.Object? && have.Object? && want.Object? && Unique(now) && Unique(have) && Unique(want)
    requires Meaning(now) == Meaning(have) && (caseSensitive || NamesApart(Meaning(have), Meaning(want)))
    ensures UniqueKeys(now.members) && UniqueKeys(have.members) && UniqueKeys(want.members)
    ensures MembersMeaning(now.members) == MembersMeaning(have.members)
    ensures caseSensitive || FoldInjective(KeysOf(MembersMeaning(have.members), MembersMeaning(want.members)))
    ensures var n, u, v := Lookup(now.members, k), Lookup(have.members, k), Lookup(want.members, k);
      OptMeaning(n) == OptMeaning(u) && (n.Some? ==> Unique(n.value)) &&
      (u.Some? ==> Unique(u.value) && Depth(u.value) < Depth(have)) &&
      (v.Some? ==> Unique(v.value) && (caseSensitive || MergeApart(None, Meaning(v.value)))) &&
      (u.Some? && v.Some? ==> caseSensitive || NamesApart(Meaning(u.value), Meaning(v.value)))
  {
    hide MembersMeaning;
    hide FoldInjective;
    LookupMeaning(now.members, k);
    LookupMeaning(have.members, k);
    LookupMeaning(want.members, k);
    assert Meaning(have).VObject? && Meaning(want).VObject?;
  }

  lemma FateHere(have: Json, want: Json, k: string, generate: bool)
    requires have.Object? && want.Object? && UniqueKeys(have.members) && UniqueKeys(want.members)
    ensures var fate := FateOf(SortMembers(have.members, generate), SortMembers(want.members, generate), k);
      var u, v := Lookup(have.members, k), Lookup(want.members, k);
      if u.None? then fate == (if v.Some? then Added else Absent)
      else if v.None? then fate.Removed?
      else fate.Met? || fate.Replaced? || fate.Lost?
  {
    hide FateOf;
    hide SortMembers;
    var x, y := SortMembers(have.members, generate), SortMembers(want.members, generate);
    SortedLookup(have.members, k, generate);
    SortedLookup(want.members, k, generate);
    if Lookup(x, k).None? {
      FateInSecond(x, y, k);
    } else if Lookup(y, k).None? {
      FateInFirst(x, y, k);
    } else {
      FateInBoth(x, y, k);
    }
  }

  lemma NameCases(have: Json, want: Json, m: Member, caseSensitive: bool)
    requires have.Object? && want.Object?
    ensures var u := Lookup(have.members, m.key);
      var fate := FateOf(SortMembers(have.members, caseSensitive), SortMembers(want.members, caseSensitive), m.key);
      NameMergeable(have, want, m, caseSensitive) <==>
        if u.None? then Fresh(m.val)
        else if fate.Met? then ValueMergeable(u.value, m.val, caseSensitive)
        else fate.Replaced? && Fresh(m.val)
  {
    hide FateOf;
    hide SortMembers;
    hide ValueMergeable;
  }

  lemma {:induction false} ValueRoundTrip(now: Json, u: Json, v: Json, generate: bool, caseSensitive: bool)
    requires Unique(now) && Unique(u) && Unique(v) && Meaning(now) == Meaning(u)
    requires caseSensitive || NamesApart(Meaning(u), Meaning(v))
    ensures OptMeaning(MetValue(Some(now), u, v, generate, caseSensitive)) == Some(Meaning(v)) <==> ValueMergeable(u, v, generate)
    decreases Depth(u), 2
  {
    hide SortedEqual;
    hide Mergeable;
    hide Unique;
    hide Left;
    hide Merged;
    hide NamesApart;
    if !SortedEqual(u, v, generate) {
      LeftMeans(u, v, generate);
      var left := Left(u, v, generate);
      NullGenerated(left.0, left.1);
      RoundTrip(now, left.0, left.1, false, caseSensitive);
    }
  }

  lemma NullGenerated(have: Json, want: Json)
    ensures var patch := Generated(have, want, false); patch.Some? ==> (patch.value.Null? <==> Meaning(want).VNull?)
    ensures want.Null? <==> Meaning(want).VNull?
  {
  }

  lemma {:induction false} RoundTrip(now: Json, have: Json, want: Json, generate: bool, caseSensitive: bool)
    requires Unique(now) && Unique(have) && Unique(want) && Meaning(now) == Meaning(have)
    requires caseSensitive || NamesApart(Meaning(have), Meaning(want))
    ensures Meaning(Updated(now, Generated(have, want, generate), caseSensitive)) == Meaning(want) <==>
      Mergeable(have, want, generate)
    decreases Depth(have), 1
  {
    if !have.Object? || !want.Object? {
      if want.Object? { MergedFresh(Some(now), want, caseSensitive); }
    } else {
      hide Updated;
      hide Mergeable;
      hide NamesApart;
      hide Unique;
      ObjectRoundTrip(now, have, want, generate, caseSensitive);
    }
  }

  lemma {:induction false} ObjectRoundTrip(now: Json, have: Json, want: Json, generate: bool, caseSensitive: bool)
    requires now.Object? && have.Object? && want.Object? && Unique(now) && Unique(have) && Unique(want)
    requires Meaning(now) == Meaning(have) && (caseSensitive || NamesApart(Meaning(have), Meaning(want)))
    ensures Meaning(Updated(now, Generated(have, want, generate), caseSensitive)) == Meaning(want) <==>
      Mergeable(have, want, generate)
    decreases Depth(have), 1, 0
  {
    hide Generated;
    hide Mergeable;
    hide NameMergeable;
    hide Unique;
    hide NamesApart;
    hide Updated;
    hide Lookup;
    hide MembersMeaning;
    var r := Updated(now, Generated(have, want, generate), caseSensitive);
    var w := want.members;
    NameRoundTrip(now, have, want, "", generate, caseSensitive);
    forall k
      ensures r.Object? && (OptMeaning(Lookup(r.members, k)) == OptMeaning(Lookup(w, k)) <==>
        (Lookup(w, k).Some? ==> NameMergeable(have, want, Member(k, Lookup(w, k).value), generate)))
    {
      NameRoundTrip(now, have, want, k, generate, caseSensitive);
    }
    SameLookups(r.members, w);
    MergeableNames(have, want, generate);
  }

  lemma SameLookups(a: seq<Member>, b: seq<Member>)
    ensures MembersMeaning(a) == MembersMeaning(b) <==> forall k :: OptMeaning(Lookup(a, k)) == OptMeaning(Lookup(b, k))
  {
    hide Lookup;
    hide MembersMeaning;
    hide Meaning;
    var p, q := MembersMeaning(a), MembersMeaning(b);
    forall k
      ensures (k in p <==> k in q) && (k in p ==> p[k] == q[k]) <==> OptMeaning(Lookup(a, k)) == OptMeaning(Lookup(b, k))
    {
      LookupMeaning(a, k);
      LookupMeaning(b, k);
    }
    if forall k :: OptMeaning(Lookup(a, k)) == OptMeaning(Lookup(b, k)) {
      assert p == q;
    }
  }

  lemma MergeableNames(have: Json, want: Json, generate: bool)
    requires have.Object? && want.Object? && Unique(want)
    ensures Mergeable(have, want, generate) <==> forall k :: Lookup(want.members, k).Some? ==>
      NameMergeable(have, want, Member(k, Lookup(want.members, k).value), generate)
  {
    hide NameMergeable;
    var w := want.members;
    forall j | 0 <= j < |w|
      ensures Lookup(w, w[j].key) == Some(w[j].val)
    {
      LookupAt(w, j);
    }
    forall k | Lookup(w, k).Some?
      ensures exists j :: 0 <= j < |w| && w[j] == Member(k, Lookup(w, k).value)
    {
      assert w[FindMember(w, k, true)] == Member(k, Lookup(w, k).value);
    }
  }

  /**
    The generated patch leads to what was wanted exactly when the two trees are
    mergeable, be it applied to `have`, to `have` as generating left it sorted, or to
    a duplicate in any other order of members.
   */
  lemma MergePatchRoundTrip(have: Json, want: Json, duplicate: Json, caseSensitive: bool)
    requires Unique(have) && Unique(want) && Unique(duplicate) && Meaning(duplicate) == Meaning(have)
    requires caseSensitive || NamesApart(Meaning(have), Meaning(want))
    ensures Meaning(Updated(duplicate, Generated(have, want, caseSensitive), caseSensitive)) == Meaning(want) <==>
      Mergeable(have, want, caseSensitive)
  {
    RoundTrip(duplicate, have, want, caseSensitive, caseSensitive);
  }

  /** Where common names stay together, only what no merge patch can express is lost. */
  lemma MergeableTogether(have: Json, want: Json, caseSensitive: bool)
    requires Unique(have) && Unique(want) && (caseSensitive || NamesApart(Meaning(have), Meaning(want)))
    requires Together(have, want, caseSensitive)
    ensures Mergeable(have, want, caseSensitive) <==>
      Meaning(have) == Meaning(want) || Expressible(Meaning(have), Meaning(want))
  {
    hide Mergeable;
    hide Expressible;
    hide Together;
    hide Generated;
    hide Unique;
    var patch := Generated(have, want, caseSensitive);
    RoundTrip(have, have, want, caseSensitive, caseSensitive);
    GeneratedMeaning(have, want, caseSensitive);
    if patch.Some? {
      if !caseSensitive { DifferenceApart(Meaning(have), Meaning(want)); }
      MergedMeaning(Some(have), patch.value, caseSensitive);
      MergeDifference(Meaning(have), Meaning(want));
    }
  }
}
