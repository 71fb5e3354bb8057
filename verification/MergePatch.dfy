/**
  merge_patch and generate_merge_patch on JSON trees. Merging computes the
  MergePatch function of section 2 of RFC 7396 on meanings, and generating gives
  the difference of two meanings as long as the walk keeps common names together.
 */
module MergePatch {
  import opened Sequences
  import opened CStrings
  import opened JsonValues
  import opened Members
  import opened Compare
  import opened MergeValues

  // ----- merge_patch -----

  function Merged(target: Option<Json>, patch: Json, caseSensitive: bool): Json
    decreases Depth(patch), 1, 0
  {
    match patch
    case Object(ps) => Object(MergedMembers(MembersOf(target), patch, ps, caseSensitive))
    case _ => patch
  }

  /** A target that is no object is replaced by an empty one. */
  function MembersOf(target: Option<Json>): seq<Member> {
    if target.Some? && target.value.Object? then target.value.members else []
  }

  function MergedMembers(t: seq<Member>, ghost patch: Json, ps: seq<Member>, caseSensitive: bool): seq<Member>
    requires forall i :: 0 <= i < |ps| ==> Depth(ps[i].val) < Depth(patch)
    decreases Depth(patch), 0, |ps|
  {
    if ps == [] then t else
      MergedMembers(MergedMember(t, patch, ps[0], caseSensitive), patch, ps[1..], caseSensitive)
  }

  /** One member of the patch: detach what it replaces, append what replaces it. */
  function MergedMember(t: seq<Member>, ghost patch: Json, p: Member, caseSensitive: bool): seq<Member>
    requires Depth(p.val) < Depth(patch)
    decreases Depth(patch), 0, 0
  {
    var (detached, rest) := Detached(t, p.key, caseSensitive);
    if p.val.Null? then rest else rest + [Member(p.key, Merged(detached, p.val, caseSensitive))]
  }

  /** cJSON_DetachItemFromObject and its case-sensitive twin. */
  function Detached(t: seq<Member>, name: string, caseSensitive: bool): (Option<Json>, seq<Member>) {
    var i := FindMember(t, name, caseSensitive);
    if i < |t| then (Some(t[i].val), RemoveAt(t, i)) else (None, t)
  }

  lemma DetachedMeaning(t: seq<Member>, name: string, ks: iset<string>, caseSensitive: bool)
    requires Unique(Object(t)) && Named(t, ks) && name in ks && (caseSensitive || FoldInjective(ks))
    ensures var (detached, rest) := Detached(t, name, caseSensitive);
      var m := MembersMeaning(t);
      Unique(Object(rest)) && Named(rest, ks) && MembersMeaning(rest) == m - {name} &&
      OptMeaning(detached) == Under(m, name) && (detached.Some? ==> Unique(detached.value))
  {
    var i := FindMember(t, name, caseSensitive);
    FindFolded(t, name, ks, caseSensitive);
    FindMeaning(t, name);
    if i < |t| {
      RemoveUnique(t, i);
      RemoveMeaning(t, i);
      hide MembersMeaning;
      RemoveNamed(t, i, ks);
    }
  }

  lemma RemoveNamed(t: seq<Member>, i: nat, ks: iset<string>)
    requires Unique(Object(t)) && Named(t, ks) && i < |t|
    ensures Unique(Object(RemoveAt(t, i))) && Named(RemoveAt(t, i), ks) && Unique(t[i].val)
  {
  }

  method ApplyMergePatch(target: Option<Json>, patch: Json, caseSensitive: bool) returns (r: Json)
    ensures r == Merged(target, patch, caseSensitive)
    decreases Depth(patch)
  {
    if !patch.Object? { return patch; }
    var members := if target.Some? && target.value.Object? then target.value.members else [];
    ghost var whole := members;
    var ps := patch.members;
    var i := 0;
    assert ps[0..] == ps;
    while i < |ps|
      invariant i <= |ps|
      invariant MergedMembers(members, patch, ps[i..], caseSensitive) == MergedMembers(whole, patch, ps, caseSensitive)
    {
      assert ps[i..][1..] == ps[i + 1..];
      var k := GetObjectItem(members, ps[i].key, caseSensitive);
      var detached: Option<Json> := None;
      if k < |members| {
        detached, members := Some(members[k].val), RemoveAt(members, k);
      }
      if !ps[i].val.Null? {
        var replacement := ApplyMergePatch(detached, ps[i].val, caseSensitive);
        members := members + [Member(ps[i].key, replacement)];
      }
      i := i + 1;
    }
    r := Object(members);
  }

  function OptMeaning(j: Option<Json>): Option<Value> {
    if j.Some? then Some(Meaning(j.value)) else None
  }

  /** merge_patch is the MergePatch function of RFC 7396. */
  lemma {:induction false} MergedMeaning(target: Option<Json>, patch: Json, caseSensitive: bool)
    requires Unique(patch) && (target.Some? ==> Unique(target.value))
    requires caseSensitive || MergeApart(OptMeaning(target), Meaning(patch))
    ensures Meaning(Merged(target, patch, caseSensitive)) == Rfc7396(OptMeaning(target), Meaning(patch))
    ensures Unique(Merged(target, patch, caseSensitive))
    decreases Depth(patch), 1, 0
  {
    if patch.Object? {
      var t, ps := MembersOf(target), patch.members;
      assert MembersMeaning(t) == MapOf(OptMeaning(target));
      var ks := PairNames(t, ps, caseSensitive);
      MergedMembersMeaning(t, patch, ps, ks, caseSensitive);
      MergeMapIsRfc(OptMeaning(target), Meaning(patch));
    }
  }

  /** What remains to be merged, as one map. */
  ghost function MergeMap(t: map<string, Value>, p: map<string, Value>): map<string, Value> {
    Rfc7396(Some(VObject(t)), VObject(p)).m
  }

  lemma MergeMapIsRfc(target: Option<Value>, patch: Value)
    requires patch.VObject?
    ensures Rfc7396(target, patch) == VObject(MergeMap(MapOf(target), patch.m))
  {
  }

  /** Merging one member first and the rest after it, as maps. */
  lemma MergeMapStep(t: map<string, Value>, p: map<string, Value>, k: string, v: Value)
    requires k !in p
    ensures MergeMap(t, p[k := v]) == MergeMap(if v == VNull then t - {k} else t[k := Rfc7396(Under(t, k), v)], p)
  {
  }

  /** What the members of the patch are merged into has names apart from theirs. */
  ghost predicate MembersApart(t: map<string, Value>, p: map<string, Value>) {
    forall k :: k in p ==> MergeApart(Under(t, k), p[k])
  }

  lemma MembersApartStep(t: map<string, Value>, t': map<string, Value>, p: map<string, Value>, k: string, v: Value)
    requires k !in p && t' - {k} == t - {k}
    ensures MembersApart(t, p[k := v]) ==> MergeApart(Under(t, k), v) && MembersApart(t', p)
  {
    hide MergeApart;
    assert k in p[k := v] && p[k := v][k] == v;
    forall j | j in p
      ensures j in p[k := v] && p[k := v][j] == p[j] && Under(t', j) == Under(t, j)
    {
      assert j in t' <==> j in t' - {k};
      assert j in t <==> j in t - {k};
    }
  }

  lemma {:induction false} MergedMembersMeaning(t: seq<Member>, patch: Json, ps: seq<Member>, ks: iset<string>, caseSensitive: bool)
    requires forall i :: 0 <= i < |ps| ==> Depth(ps[i].val) < Depth(patch)
    requires Unique(Object(t)) && Unique(Object(ps)) && Named(t, ks) && Named(ps, ks)
    requires caseSensitive || (FoldInjective(ks) && MembersApart(MembersMeaning(t), MembersMeaning(ps)))
    ensures var r := MergedMembers(t, patch, ps, caseSensitive);
      Unique(Object(r)) && Named(r, ks) && MembersMeaning(r) == MergeMap(MembersMeaning(t), MembersMeaning(ps))
    decreases Depth(patch), 0, |ps|
  {
    if ps != [] {
      hide MergedMember;
      hide MergeMap;
      hide MembersApart;
      hide MembersMeaning;
      hide FoldInjective;
      hide Named;
      hide Unique;
      hide Depth;
      MergeTurn(t, patch, ps, ks, caseSensitive);
      MergedMembersMeaning(MergedMember(t, patch, ps[0], caseSensitive), patch, ps[1..], ks, caseSensitive);
    }
  }

  /** Merging the first member leaves the rest to be merged. */
  lemma {:induction false} MergeTurn(t: seq<Member>, patch: Json, ps: seq<Member>, ks: iset<string>, caseSensitive: bool)
    requires ps != [] && Depth(ps[0].val) < Depth(patch)
    requires Unique(Object(t)) && Unique(Object(ps)) && Named(t, ks) && Named(ps, ks)
    requires caseSensitive || (FoldInjective(ks) && MembersApart(MembersMeaning(t), MembersMeaning(ps)))
    ensures var t', rest := MergedMember(t, patch, ps[0], caseSensitive), ps[1..];
      Unique(Object(t')) && Named(t', ks) && Unique(Object(rest)) && Named(rest, ks) &&
      (caseSensitive || MembersApart(MembersMeaning(t'), MembersMeaning(rest))) &&
      MergeMap(MembersMeaning(t), MembersMeaning(ps)) == MergeMap(MembersMeaning(t'), MembersMeaning(rest))
    decreases Depth(patch), 0, 0
  {
    hide MergedMember;
    hide MergeMap;
    hide MembersApart;
    hide Rfc7396;
    hide Depth;
    hide FoldInjective;
    UniqueTail(ps);
    hide Unique;
    var p := ps[0];
    var m, rest := MembersMeaning(t), MembersMeaning(ps[1..]);
    FindMeaning(ps[1..], p.key);
    MembersApartStep(m, m, rest, p.key, Meaning(p.val));
    MergedMemberMeaning(t, patch, p, ks, caseSensitive);
    MembersApartStep(m, MembersMeaning(MergedMember(t, patch, p, caseSensitive)), rest, p.key, Meaning(p.val));
    MergeMapStep(m, rest, p.key, Meaning(p.val));
  }

  lemma {:induction false} MergedMemberMeaning(t: seq<Member>, patch: Json, p: Member, ks: iset<string>, caseSensitive: bool)
    requires Depth(p.val) < Depth(patch) && p.key in ks
    requires Unique(Object(t)) && Named(t, ks) && Unique(p.val)
    requires caseSensitive || (FoldInjective(ks) && MergeApart(Under(MembersMeaning(t), p.key), Meaning(p.val)))
    ensures var r, m, k := MergedMember(t, patch, p, caseSensitive), MembersMeaning(t), p.key;
      Unique(Object(r)) && Named(r, ks) && MembersMeaning(r) - {k} == m - {k} &&
      MembersMeaning(r) == if p.val.Null? then m - {k} else m[k := Rfc7396(Under(m, k), Meaning(p.val))]
    decreases Depth(patch), 0, 0, 0
  {
    DetachedMeaning(t, p.key, ks, caseSensitive);
    hide Detached;
    hide MembersMeaning;
    hide Rfc7396;
    hide MergeApart;
    if !p.val.Null? {
      var (detached, rest) := Detached(t, p.key, caseSensitive);
      MergedMeaning(detached, p.val, caseSensitive);
      var merged := Member(p.key, Merged(detached, p.val, caseSensitive));
      AppendNamed(rest, merged, ks);
      PutAgain(MembersMeaning(t), p.key, Meaning(merged.val));
    }
  }

  lemma AppendNamed(ms: seq<Member>, m: Member, ks: iset<string>)
    requires m.key in ks && Unique(m.val) && Unique(Object(ms)) && Named(ms, ks)
    requires m.key !in MembersMeaning(ms)
    ensures Unique(Object(ms + [m])) && Named(ms + [m], ks)
    ensures MembersMeaning(ms + [m]) == MembersMeaning(ms)[m.key := Meaning(m.val)]
  {
    AppendMeaning(ms, m);
  }

  /** Applying the same merge patch twice is applying it once. */
  lemma MergePatchIdempotent(target: Option<Json>, patch: Json, caseSensitive: bool)
    requires Unique(patch) && (target.Some? ==> Unique(target.value))
    requires caseSensitive || MergeApart(OptMeaning(target), Meaning(patch))
    ensures var once := Merged(target, patch, caseSensitive);
      Meaning(Merged(Some(once), patch, caseSensitive)) == Meaning(once)
  {
    hide Merged;
    hide Rfc7396;
    MergedMeaning(target, patch, caseSensitive);
    if !caseSensitive { MergeApartAgain(OptMeaning(target), Meaning(patch)); }
    MergedMeaning(Some(Merged(target, patch, caseSensitive)), patch, caseSensitive);
    MergeIdempotent(OptMeaning(target), Meaning(patch));
  }

  // ----- generate_merge_patch -----

  /** None is the NULL that stands for "no patch needed". */
  function Generated(have: Json, want: Json, caseSensitive: bool): Option<Json>
    decreases Depth(have), 1, 0
  {
    if !have.Object? || !want.Object? then Some(want) else
      SortedDepth(have.members, caseSensitive);
      var ms := GeneratedMembers(have, SortMembers(have.members, caseSensitive),
                                 SortMembers(want.members, caseSensitive), caseSensitive);
      if ms == [] then None else Some(Object(ms))
  }

  /** The walk compares names with strcmp, and inner patches are generated ignoring case. */
  function GeneratedMembers(ghost parent: Json, x: seq<Member>, y: seq<Member>, caseSensitive: bool): seq<Member>
    requires forall i :: 0 <= i < |x| ==> Depth(x[i].val) < Depth(parent)
    decreases Depth(parent), 0, |x| + |y|
  {
    if x == [] && y == [] then [] else
      var diff := WalkDiff(x, y);
      if diff < 0 then
        [Member(x[0].key, Null)] + GeneratedMembers(parent, x[1..], y, caseSensitive)
      else if diff > 0 then
        [y[0]] + GeneratedMembers(parent, x, y[1..], caseSensitive)
      else
        GeneratedMember(parent, x[0], y[0], caseSensitive) + GeneratedMembers(parent, x[1..], y[1..], caseSensitive)
  }

  /** Values that differ have been sorted in the comparison, as far as it went, before the inner patch is generated. */
  function GeneratedMember(ghost parent: Json, x: Member, y: Member, caseSensitive: bool): seq<Member>
    requires Depth(x.val) < Depth(parent)
    decreases Depth(parent), 0, 0
  {
    if SortedEqual(x.val, y.val, caseSensitive) then [] else
      var left := Left(x.val, y.val, caseSensitive);
      var patch := Generated(left.0, left.1, false);
      if patch.None? then [] else [Member(y.key, patch.value)]
  }

  /** The sign the walk acts on: an exhausted list counts as having the larger name. */
  function WalkDiff(x: seq<Member>, y: seq<Member>): int {
    if x == [] then 1 else if y == [] then -1 else StrCmp(x[0].key, y[0].key)
  }

  method GenerateMergePatch(have: Json, want: Json, caseSensitive: bool) returns (r: Option<Json>)
    ensures r == Generated(have, want, caseSensitive)
    decreases Depth(have), 1
  {
    if !have.Object? || !want.Object? { return Some(want); }
    var x, y := SortMembers(have.members, caseSensitive), SortMembers(want.members, caseSensitive);
    SortedDepth(have.members, caseSensitive);
    ghost var all := GeneratedMembers(have, x, y, caseSensitive);
    var patch: seq<Member> := [];
    assert patch + all == all;
    while x != [] || y != []
      invariant forall i :: 0 <= i < |x| ==> Depth(x[i].val) < Depth(have)
      invariant patch + GeneratedMembers(have, x, y, caseSensitive) == all
      decreases |x| + |y|
    {
      var diff, emitted, x', y' := WalkDiff(x, y), [], x, y;
      if diff < 0 {
        emitted, x' := [Member(x[0].key, Null)], x[1..];
      } else if diff > 0 {
        emitted, y' := [y[0]], y[1..];
      } else {
        emitted := GenerateMember(have, x[0], y[0], caseSensitive);
        x', y' := x[1..], y[1..];
      }
      assert GeneratedMembers(have, x, y, caseSensitive) == emitted + GeneratedMembers(have, x', y', caseSensitive);
      Append(patch, emitted, GeneratedMembers(have, x', y', caseSensitive));
      patch, x, y := patch + emitted, x', y';
    }
    assert patch + [] == patch == all;
    r := if patch == [] then None else Some(Object(patch));
  }

  method GenerateMember(ghost parent: Json, x: Member, y: Member, caseSensitive: bool) returns (emitted: seq<Member>)
    requires Depth(x.val) < Depth(parent)
    ensures emitted == GeneratedMember(parent, x, y, caseSensitive)
    decreases Depth(parent), 0
  {
    var identical, u, v := CompareJson(x.val, y.val, caseSensitive);
    if identical { return []; }
    assert (u, v).0 == Left(x.val, y.val, caseSensitive).0;
    var inner := GenerateMergePatch(u, v, false);
    emitted := if inner.None? then [] else [Member(y.key, inner.value)];
  }

  // ----- what the walk does with a name -----

  datatype Fate =
    | Absent // neither object has it
    | Removed // only the first has it
    | Added // only the second has it
    | Met // the walk stands at it in both lists at once
    | Replaced // both have it, and its removal comes before its addition
    | Lost // both have it, and its addition comes before its removal

  function FateOf(x: seq<Member>, y: seq<Member>, k: string): Fate
    decreases |x| + |y|
  {
    if x == [] && y == [] then Absent else
      var diff := WalkDiff(x, y);
      if diff < 0 then
        if x[0].key != k then FateOf(x[1..], y, k) else if Lookup(y, k).Some? then Replaced else Removed
      else if diff > 0 then
        if y[0].key != k then FateOf(x, y[1..], k) else if Lookup(x, k).Some? then Lost else Added
      else
        if x[0].key != k then FateOf(x[1..], y[1..], k) else Met
  }

  /** Lists in strcmp's order: the walk meets every common name. */
  lemma {:induction false} SortedMet(x: seq<Member>, y: seq<Member>, i: nat, j: nat)
    requires StrictlySorted(x, true) && StrictlySorted(y, true)
    requires i < |x| && j < |y| && x[i].key == y[j].key
    ensures FateOf(x, y, x[i].key).Met?
    decreases |x| + |y|
  {
    hide Less;
    hide Lookup;
    var k, diff := x[i].key, WalkDiff(x, y);
    assert i > 0 ==> Before(x[0], x[i], true);
    assert j > 0 ==> Before(y[0], y[j], true);
    LessTotal(x[0].key, y[0].key);
    LessIrreflexive(k);
    if diff < 0 {
      LessAsymmetric(x[0].key, y[0].key);
      SortedMet(x[1..], y, i - 1, j);
    } else if diff > 0 {
      LessAsymmetric(y[0].key, x[0].key);
      SortedMet(x, y[1..], i, j - 1);
    } else if x[0].key != k {
      SortedMet(x[1..], y[1..], i - 1, j - 1);
    }
  }

  /** In every pair of objects that is walked, the common names are met, and compared rightly. */
  ghost predicate Together(have: Json, want: Json, caseSensitive: bool)
    decreases Depth(have), 0
  {
    have.Object? && want.Object? ==>
      var x, y := SortMembers(have.members, caseSensitive), SortMembers(want.members, caseSensitive);
      forall i, j :: 0 <= i < |have.members| && 0 <= j < |want.members| && have.members[i].key == want.members[j].key ==>
        FateOf(x, y, have.members[i].key).Met? &&
        ValuesTogether(have.members[i].val, want.members[j].val, caseSensitive)
  }

  ghost predicate ValuesTogether(u: Json, v: Json, caseSensitive: bool)
    decreases Depth(u), 1
  {
    (SortedEqual(u, v, caseSensitive) <==> Meaning(u) == Meaning(v)) &&
    (SortedEqual(u, v, caseSensitive) || Together(Left(u, v, caseSensitive).0, Left(u, v, caseSensitive).1, false))
  }

  ghost predicate ListsTogether(x: seq<Member>, y: seq<Member>, caseSensitive: bool) {
    forall i, j :: 0 <= i < |x| && 0 <= j < |y| && x[i].key == y[j].key ==>
      FateOf(x, y, x[i].key).Met? && ValuesTogether(x[i].val, y[j].val, caseSensitive)
  }

  lemma SortedTogether(have: Json, want: Json, caseSensitive: bool)
    requires have.Object? && want.Object? && Together(have, want, caseSensitive)
    ensures ListsTogether(SortMembers(have.members, caseSensitive), SortMembers(want.members, caseSensitive), caseSensitive)
  {
    hide FateOf;
    hide ValuesTogether;
    hide SortMembers;
    var x, y := SortMembers(have.members, caseSensitive), SortMembers(want.members, caseSensitive);
    SameMembers(have.members, x);
    SameMembers(want.members, y);
    forall i, j | 0 <= i < |x| && 0 <= j < |y| && x[i].key == y[j].key
      ensures FateOf(x, y, x[i].key).Met? && ValuesTogether(x[i].val, y[j].val, caseSensitive)
    {
      assert x[i] in have.members && y[j] in want.members;
    }
  }

  lemma TogetherTails(x: seq<Member>, y: seq<Member>, caseSensitive: bool)
    requires UniqueKeys(x) && UniqueKeys(y) && ListsTogether(x, y, caseSensitive) && (x != [] || y != [])
    ensures WalkDiff(x, y) < 0 ==> x != [] && Lookup(y, x[0].key).None? && ListsTogether(x[1..], y, caseSensitive)
    ensures WalkDiff(x, y) > 0 ==> y != [] && Lookup(x, y[0].key).None? && ListsTogether(x, y[1..], caseSensitive)
    ensures WalkDiff(x, y) == 0 ==> x != [] && y != [] && x[0].key == y[0].key
    ensures WalkDiff(x, y) == 0 ==> ValuesTogether(x[0].val, y[0].val, caseSensitive) && ListsTogether(x[1..], y[1..], caseSensitive)
  {
    hide ValuesTogether;
    hide Less;
  }

  /** In each pair of corresponding objects, both orders sort the names alike. */
  ghost predicate Aligned(a: Value, b: Value)
    decreases a
  {
    match (a, b)
    case (VArray(x), VArray(y)) => forall i :: 0 <= i < |x| && i < |y| ==> Aligned(x[i], y[i])
    case (VObject(p), VObject(q)) => FoldMonotone(KeysOf(p, q)) && forall k :: k in p && k in q ==> Aligned(p[k], q[k])
    case _ => true
  }

  /** The same but for the names of the outermost objects. */
  ghost predicate AlignedInside(a: Value, b: Value) {
    a.VObject? && b.VObject? ==> forall k :: k in a.m && k in b.m ==> Aligned(a.m[k], b.m[k])
  }

  lemma {:induction false} AlignedApart(a: Value, b: Value)
    requires Aligned(a, b)
    ensures Apart(a, b)
    decreases a
  {
    if a.VArray? && b.VArray? {
      forall i | 0 <= i < |a.items| && i < |b.items|
        ensures Apart(a.items[i], b.items[i])
      {
        AlignedApart(a.items[i], b.items[i]);
      }
    } else if a.VObject? && b.VObject? {
      MonotoneIsInjective(KeysOf(a.m, b.m));
      forall k | k in a.m && k in b.m
        ensures Apart(a.m[k], b.m[k])
      {
        AlignedApart(a.m[k], b.m[k]);
      }
    }
  }

  /** Names that both orders sort alike are kept together; in strcmp's order, any unique names are. */
  lemma {:induction false} AlignedTogether(have: Json, want: Json, caseSensitive: bool)
    requires Unique(have) && Unique(want)
    requires if caseSensitive then AlignedInside(Meaning(have), Meaning(want)) else Aligned(Meaning(have), Meaning(want))
    ensures Together(have, want, caseSensitive)
    decreases Depth(have), 0
  {
    hide SortMembers;
    hide FateOf;
    hide ValuesTogether;
    hide Aligned;
    hide AlignedInside;
    hide Unique;
    hide Meaning;
    if have.Object? && want.Object? {
      var f, t := have.members, want.members;
      var x, y := SortMembers(f, caseSensitive), SortMembers(t, caseSensitive);
      forall i, j | 0 <= i < |f| && 0 <= j < |t| && f[i].key == t[j].key
        ensures FateOf(x, y, f[i].key).Met? && ValuesTogether(f[i].val, t[j].val, caseSensitive)
      {
        AlignedMet(have, want, i, j, caseSensitive);
        AlignedValues(have, want, i, j, caseSensitive);
        AlignedValuesTogether(f[i].val, t[j].val, caseSensitive);
      }
    }
  }

  lemma {:induction false} AlignedValuesTogether(u: Json, v: Json, caseSensitive: bool)
    requires Unique(u) && Unique(v) && Aligned(Meaning(u), Meaning(v))
    ensures ValuesTogether(u, v, caseSensitive)
    decreases Depth(u), 1
  {
    hide Left;
    hide Unique;
    hide Aligned;
    hide Together;
    hide SortedEqual;
    AlignedApart(Meaning(u), Meaning(v));
    SortedDecidesMeaning(u, v, caseSensitive);
    LeftMeans(u, v, caseSensitive);
    var left := Left(u, v, caseSensitive);
    AlignedTogether(left.0, left.1, false);
  }

  lemma AlignedMet(have: Json, want: Json, i: nat, j: nat, caseSensitive: bool)
    requires have.Object? && want.Object? && Unique(have) && Unique(want)
    requires if caseSensitive then AlignedInside(Meaning(have), Meaning(want)) else Aligned(Meaning(have), Meaning(want))
    requires i < |have.members| && j < |want.members| && have.members[i].key == want.members[j].key
    ensures FateOf(SortMembers(have.members, caseSensitive), SortMembers(want.members, caseSensitive), have.members[i].key).Met?
  {
    hide SortMembers;
    hide FateOf;
    hide StrictlySorted;
    hide Aligned;
    hide AlignedInside;
    hide Unique;
    var f, t := have.members, want.members;
    var x, y := SortMembers(f, caseSensitive), SortMembers(t, caseSensitive);
    AlignedSorts(have, want, caseSensitive);
    assert f[i] in x && t[j] in y;
    var i', j' :| 0 <= i' < |x| && 0 <= j' < |y| && x[i'] == f[i] && y[j'] == t[j];
    SortedMet(x, y, i', j');
  }

  lemma AlignedValues(have: Json, want: Json, i: nat, j: nat, caseSensitive: bool)
    requires have.Object? && want.Object? && Unique(have) && Unique(want)
    requires if caseSensitive then AlignedInside(Meaning(have), Meaning(want)) else Aligned(Meaning(have), Meaning(want))
    requires i < |have.members| && j < |want.members| && have.members[i].key == want.members[j].key
    ensures Aligned(Meaning(have.members[i].val), Meaning(want.members[j].val))
    ensures Unique(have.members[i].val) && Unique(want.members[j].val)
  {
    MemberMeaning(have.members, i);
    MemberMeaning(want.members, j);
  }

  lemma AlignedSorts(have: Json, want: Json, caseSensitive: bool)
    requires have.Object? && want.Object? && Unique(have) && Unique(want)
    requires if caseSensitive then AlignedInside(Meaning(have), Meaning(want)) else Aligned(Meaning(have), Meaning(want))
    ensures var f, t := have.members, want.members;
      var x, y := SortMembers(f, caseSensitive), SortMembers(t, caseSensitive);
      StrictlySorted(x, true) && StrictlySorted(y, true) && (forall m :: m in f <==> m in x) && forall m :: m in t <==> m in y
  {
    hide StrictlySorted;
    hide SortMembers;
    var f, t := have.members, want.members;
    SameMembers(f, SortMembers(f, caseSensitive));
    SameMembers(t, SortMembers(t, caseSensitive));
    if caseSensitive {
      UniqueSorted(f);
      UniqueSorted(t);
    } else {
      var ks := KeysOf(MembersMeaning(f), MembersMeaning(t));
      MonotoneIsInjective(ks);
      NamedBy(f, ks);
      NamedBy(t, ks);
      SortObject(f, ks, false);
      SortObject(t, ks, false);
      MonotoneSorted(SortMembers(f, false), ks);
      MonotoneSorted(SortMembers(t, false), ks);
    }
  }

  lemma UniqueSorted(ms: seq<Member>)
    requires UniqueKeys(ms)
    ensures StrictlySorted(SortMembers(ms, true), true)
  {
    hide Less;
    hide SortMembers;
    var r := SortMembers(ms, true);
    SortIsSorted(ms, true);
    PermutedKeys(ms, r);
    forall i, j | 0 <= i < j < |r|
      ensures Before(r[i], r[j], true)
    {
      LessTotal(r[i].key, r[j].key);
    }
  }

  // ----- what generating means -----

  /** The difference of two objects, as a map that is empty when there is none. */
  ghost function DiffMap(f: map<string, Value>, t: map<string, Value>): map<string, Value> {
    map k | k in f.Keys + t.Keys && !(k in f && k in t && f[k] == t[k]) ::
      if k !in t then VNull else if k !in f then t[k] else Difference(f[k], t[k]).value
  }

  lemma DiffMapIsDifference(f: map<string, Value>, t: map<string, Value>)
    ensures Difference(VObject(f), VObject(t)) ==
      if DiffMap(f, t) == map[] then None else Some(VObject(DiffMap(f, t)))
  {
  }

  /** Where common names stay together, the patch means the difference of the meanings. */
  lemma {:induction false} GeneratedMeaning(have: Json, want: Json, caseSensitive: bool)
    requires Unique(have) && Unique(want) && Together(have, want, caseSensitive)
    ensures OptMeaning(Generated(have, want, caseSensitive)) == Difference(Meaning(have), Meaning(want))
    ensures var patch := Generated(have, want, caseSensitive); patch.Some? ==> Unique(patch.value)
    decreases Depth(have), 1, 0
  {
    hide Together;
    hide Unique;
    hide GeneratedMembers;
    if have.Object? && want.Object? {
      var x, y := SortMembers(have.members, caseSensitive), SortMembers(want.members, caseSensitive);
      SortedDepth(have.members, caseSensitive);
      SortUnique(have.members, caseSensitive);
      SortUnique(want.members, caseSensitive);
      SortedTogether(have, want, caseSensitive);
      GeneratedMembersMeaning(have, x, y, caseSensitive);
      var ms := GeneratedMembers(have, x, y, caseSensitive);
      assert ms != [] ==> ms[0].key in MembersMeaning(ms);
      DiffMapIsDifference(MembersMeaning(x), MembersMeaning(y));
    }
  }

  lemma DiffMapEmpty()
    ensures DiffMap(map[], map[]) == map[]
  {
  }

  lemma DiffMapKeys(p: map<string, Value>, q: map<string, Value>, k: string)
    requires k !in p && k !in q
    ensures k !in DiffMap(p, q)
  {
  }

  lemma DiffMapRemove(p: map<string, Value>, q: map<string, Value>, k: string, u: Value)
    requires k !in p && k !in q
    ensures DiffMap(p[k := u], q) == DiffMap(p, q)[k := VNull]
  {
  }

  lemma DiffMapAdd(p: map<string, Value>, q: map<string, Value>, k: string, v: Value)
    requires k !in p && k !in q
    ensures DiffMap(p, q[k := v]) == DiffMap(p, q)[k := v]
  {
  }

  lemma DiffMapChange(p: map<string, Value>, q: map<string, Value>, k: string, u: Value, v: Value)
    requires k !in p && k !in q
    ensures DiffMap(p[k := u], q[k := v]) ==
      if u == v then DiffMap(p, q) else DiffMap(p, q)[k := Difference(u, v).value]
  {
  }

  lemma {:induction false} GeneratedMembersMeaning(parent: Json, x: seq<Member>, y: seq<Member>, caseSensitive: bool)
    requires forall i :: 0 <= i < |x| ==> Depth(x[i].val) < Depth(parent)
    requires Unique(Object(x)) && Unique(Object(y)) && ListsTogether(x, y, caseSensitive)
    ensures var r := GeneratedMembers(parent, x, y, caseSensitive);
      Unique(Object(r)) && MembersMeaning(r) == DiffMap(MembersMeaning(x), MembersMeaning(y))
    decreases Depth(parent), 0, |x| + |y|
  {
    hide ListsTogether;
    hide ValuesTogether;
    hide DiffMap;
    hide Less;
    if x == [] && y == [] {
      DiffMapEmpty();
      return;
    }
    var diff := WalkDiff(x, y);
    TogetherTails(x, y, caseSensitive);
    if x != [] { NotBehind(x); UniqueTail(x); }
    if y != [] { NotBehind(y); UniqueTail(y); }
    if diff < 0 {
      var k, rest := x[0].key, GeneratedMembers(parent, x[1..], y, caseSensitive);
      FindMeaning(y, k);
      DiffMapKeys(MembersMeaning(x[1..]), MembersMeaning(y), k);
      GeneratedMembersMeaning(parent, x[1..], y, caseSensitive);
      DiffMapRemove(MembersMeaning(x[1..]), MembersMeaning(y), k, Meaning(x[0].val));
      ConsUnique(Member(k, Null), rest);
    } else if diff > 0 {
      var k, rest := y[0].key, GeneratedMembers(parent, x, y[1..], caseSensitive);
      FindMeaning(x, k);
      DiffMapKeys(MembersMeaning(x), MembersMeaning(y[1..]), k);
      GeneratedMembersMeaning(parent, x, y[1..], caseSensitive);
      DiffMapAdd(MembersMeaning(x), MembersMeaning(y[1..]), k, Meaning(y[0].val));
      ConsUnique(y[0], rest);
    } else {
      GeneratedCommonMember(parent, x, y, caseSensitive);
    }
  }

  lemma NotBehind(ms: seq<Member>)
    requires UniqueKeys(ms) && ms != []
    ensures ms[0].key !in MembersMeaning(ms[1..])
  {
    FindMeaning(ms[1..], ms[0].key);
  }

  lemma {:induction false} GeneratedMemberMeaning(parent: Json, x: Member, y: Member, caseSensitive: bool)
    requires Depth(x.val) < Depth(parent)
    requires Unique(x.val) && Unique(y.val) && ValuesTogether(x.val, y.val, caseSensitive)
    ensures var r := GeneratedMember(parent, x, y, caseSensitive);
      if Meaning(x.val) == Meaning(y.val) then r == []
      else |r| == 1 && r[0].key == y.key && Unique(r[0].val) &&
           Some(Meaning(r[0].val)) == Difference(Meaning(x.val), Meaning(y.val))
    decreases Depth(parent), 0, 0, 0
  {
    hide Unique;
    hide Left;
    if !SortedEqual(x.val, y.val, caseSensitive) {
      LeftMeans(x.val, y.val, caseSensitive);
      var left := Left(x.val, y.val, caseSensitive);
      GeneratedMeaning(left.0, left.1, false);
    }
  }

  lemma CommonTurn(parent: Json, x: seq<Member>, y: seq<Member>, caseSensitive: bool)
    requires forall i :: 0 <= i < |x| ==> Depth(x[i].val) < Depth(parent)
    requires x != [] && y != [] && x[0].key == y[0].key
    ensures GeneratedMembers(parent, x, y, caseSensitive) ==
      GeneratedMember(parent, x[0], y[0], caseSensitive) + GeneratedMembers(parent, x[1..], y[1..], caseSensitive)
  {
  }

  lemma {:induction false} GeneratedCommonMember(parent: Json, x: seq<Member>, y: seq<Member>, caseSensitive: bool)
    requires forall i :: 0 <= i < |x| ==> Depth(x[i].val) < Depth(parent)
    requires x != [] && y != [] && x[0].key == y[0].key
    requires Unique(Object(x)) && Unique(Object(y))
    requires ListsTogether(x[1..], y[1..], caseSensitive) && ValuesTogether(x[0].val, y[0].val, caseSensitive)
    ensures var r := GeneratedMembers(parent, x, y, caseSensitive);
      Unique(Object(r)) && MembersMeaning(r) == DiffMap(MembersMeaning(x), MembersMeaning(y))
    decreases Depth(parent), 0, |x| + |y|, 0
  {
    hide ListsTogether;
    hide ValuesTogether;
    hide DiffMap;
    hide Difference;
    hide GeneratedMember;
    hide SortedEqual;
    hide Generated;
    hide Depth;
    var rest, emitted := GeneratedMembers(parent, x[1..], y[1..], caseSensitive), GeneratedMember(parent, x[0], y[0], caseSensitive);
    var p, q := MembersMeaning(x[1..]), MembersMeaning(y[1..]);
    NotBehind(x);
    NotBehind(y);
    UniqueTail(x);
    UniqueTail(y);
    GeneratedMembersMeaning(parent, x[1..], y[1..], caseSensitive);
    GeneratedMemberMeaning(parent, x[0], y[0], caseSensitive);
    DiffMapChange(p, q, x[0].key, Meaning(x[0].val), Meaning(y[0].val));
    CommonTurn(parent, x, y, caseSensitive);
    hide GeneratedMembers;
    if emitted == [] {
      assert emitted + rest == rest;
    } else {
      DiffMapKeys(p, q, x[0].key);
      ConsUnique(emitted[0], rest);
      assert emitted == [emitted[0]];
    }
  }

  lemma ConsUnique(m: Member, rest: seq<Member>)
    requires Unique(m.val) && Unique(Object(rest))
    requires m.key !in MembersMeaning(rest)
    ensures Unique(Object([m] + rest))
    ensures MembersMeaning([m] + rest) == MembersMeaning(rest)[m.key := Meaning(m.val)]
  {
    FindMeaning(rest, m.key);
    assert ([m] + rest)[1..] == rest;
  }
}
