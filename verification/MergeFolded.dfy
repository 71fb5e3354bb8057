/**
  When a generated merge patch leads from `have` to `want` in the functions that ignore
  case, for any two trees without repetitions: a name may be spelled differently in
  the two, and then the walk takes it for one to remove and one to add.
 */
module MergeFolded {
  import opened CStrings
  import opened JsonValues
  import opened Members
  import opened Compare
  import opened MergeValues
  import opened MergePatch
  import opened MergeRoundTrip
  import opened FoldedNames
  import opened FoldedMeanings

  // ----- what the walk does with a name in any spelling -----

  predicate SameName(k: string, n: string) {
    Fold(k) == Fold(n)
  }

  /** As FateOf, for the one spelling of the name that each list may have. */
  function FoldedFate(x: seq<Member>, y: seq<Member>, n: string): Fate
    decreases |x| + |y|
  {
    if x == [] && y == [] then Absent else
      var diff := WalkDiff(x, y);
      if diff < 0 then
        if !SameName(x[0].key, n) then FoldedFate(x[1..], y, n) else if UnderFolded(y, n).Some? then Fate.Replaced else Removed
      else if diff > 0 then
        if !SameName(y[0].key, n) then FoldedFate(x, y[1..], n) else if UnderFolded(x, n).Some? then Lost else Fate.Added
      else
        if !SameName(x[0].key, n) then FoldedFate(x[1..], y[1..], n) else Met
  }

  lemma FoldedHeads(ms: seq<Member>, n: string)
    requires FoldKeys(ms)
    ensures ms == [] ==> UnderFolded(ms, n).None?
    ensures ms != [] && SameName(ms[0].key, n) ==> UnderFolded(ms, n) == Some(ms[0].val) && UnderFolded(ms[1..], n).None?
    ensures ms != [] && !SameName(ms[0].key, n) ==> UnderFolded(ms[1..], n) == UnderFolded(ms, n)
  {
    hide Fold;
    if ms != [] {
      var i := FindMember(ms[1..], n, false);
      assert i < |ms| - 1 ==> ms[1..][i] == ms[i + 1];
      if SameName(ms[0].key, n) {
        UnderIs(ms, n, 0);
      } else {
        OneFurther(ms, n);
      }
    }
  }

  lemma OneFurther(ms: seq<Member>, n: string)
    requires ms != [] && !SameName(ms[0].key, n)
    ensures FindMember(ms, n, false) == 1 + FindMember(ms[1..], n, false)
  {
    hide Fold;
  }

  lemma {:induction false} FoldedInSecond(x: seq<Member>, y: seq<Member>, n: string)
    requires FoldKeys(x) && FoldKeys(y) && UnderFolded(x, n).None?
    ensures FoldedFate(x, y, n) == if UnderFolded(y, n).Some? then Fate.Added else Absent
    decreases |x| + |y|
  {
    if x != [] || y != [] {
      var diff := WalkDiff(x, y);
      FoldedHeads(x, n);
      FoldedHeads(y, n);
      hide UnderFolded;
      hide Less;
      hide Fold;
      FoldedInSecond(if diff <= 0 then x[1..] else x, if diff >= 0 then y[1..] else y, n);
    }
  }

  lemma {:induction false} FoldedInFirst(x: seq<Member>, y: seq<Member>, n: string)
    requires FoldKeys(x) && FoldKeys(y) && UnderFolded(x, n).Some? && UnderFolded(y, n).None?
    ensures FoldedFate(x, y, n).Removed?
    decreases |x| + |y|
  {
    var diff := WalkDiff(x, y);
    FoldedHeads(x, n);
    FoldedHeads(y, n);
    hide UnderFolded;
    hide Less;
    hide Fold;
    if diff > 0 || !SameName(x[0].key, n) {
      FoldedInFirst(if diff <= 0 then x[1..] else x, if diff >= 0 then y[1..] else y, n);
    }
  }

  lemma {:induction false} FoldedInBoth(x: seq<Member>, y: seq<Member>, n: string)
    requires FoldKeys(x) && FoldKeys(y) && UnderFolded(x, n).Some? && UnderFolded(y, n).Some?
    ensures var fate := FoldedFate(x, y, n); fate.Met? || fate.Replaced? || fate.Lost?
    decreases |x| + |y|
  {
    var diff := WalkDiff(x, y);
    FoldedHeads(x, n);
    FoldedHeads(y, n);
    hide UnderFolded;
    hide Less;
    hide Fold;
    if (diff <= 0 ==> !SameName(x[0].key, n)) && (diff >= 0 ==> !SameName(y[0].key, n)) {
      FoldedInBoth(if diff <= 0 then x[1..] else x, if diff >= 0 then y[1..] else y, n);
    }
  }

  // ----- the patch with its names folded -----

  /** What the patch for two values that are met makes of what is there, all with names folded. */
  function FoldedMet(now: Option<Json>, u: Json, v: Json, generate: bool): Option<Json> {
    if SortedEqual(u, v, generate) then now else
      var left := Left(u, v, generate);
      var patch := Generated(left.0, left.1, false);
      if patch.None? then now else MergedValue(now, FoldNames(patch.value), true)
  }

  /** What merging makes of a name, going by its fate in the walk. */
  function FoldedValue(fate: Fate, now: Option<Json>, u: Option<Json>, v: Option<Json>, generate: bool): Option<Json> {
    match fate
    case Removed | Lost => None
    case Added => if v.Some? then MergedValue(now, FoldNames(v.value), true) else now
    case Replaced => if v.Some? then MergedValue(None, FoldNames(v.value), true) else None
    case Met => if u.Some? && v.Some? then FoldedMet(now, u.value, v.value, generate) else now
    case Absent => now
  }

  /** One member of the patch and the rest of it. */
  lemma FoldedCons(now: Option<Json>, p: Member, rest: seq<Member>, n: string)
    ensures Track(now, FoldMembers([p] + rest), Fold(n), true) ==
      Track(if SameName(p.key, n) then MergedValue(now, FoldNames(p.val), true) else now, FoldMembers(rest), Fold(n), true)
  {
    hide Fold;
    hide Track;
    hide MergedValue;
    assert FoldMembers([p] + rest) == [FoldMember(p)] + FoldMembers(rest);
    TrackCons(now, FoldMember(p), FoldMembers(rest), Fold(n), true);
  }

  /** Fate, one turn of the walk at a time. */
  lemma FateStep(x: seq<Member>, y: seq<Member>, n: string)
    requires x != [] || y != []
    ensures var diff := WalkDiff(x, y);
      FoldedFate(x, y, n) ==
        if diff < 0 then
          if !SameName(x[0].key, n) then FoldedFate(x[1..], y, n) else if UnderFolded(y, n).Some? then Fate.Replaced else Removed
        else if diff > 0 then
          if !SameName(y[0].key, n) then FoldedFate(x, y[1..], n) else if UnderFolded(x, n).Some? then Lost else Fate.Added
        else
          if !SameName(x[0].key, n) then FoldedFate(x[1..], y[1..], n) else Met
  {
  }

  lemma FoldedSurplus(x: seq<Member>, y: seq<Member>, now: Option<Json>, rest: seq<Member>, n: string, generate: bool)
    requires FoldKeys(x) && FoldKeys(y) && x != [] && WalkDiff(x, y) < 0
    requires var now' := if SameName(x[0].key, n) then None else now;
      Track(now', FoldMembers(rest), Fold(n), true) ==
      FoldedValue(FoldedFate(x[1..], y, n), now', UnderFolded(x[1..], n), UnderFolded(y, n), generate)
    ensures Track(now, FoldMembers([Member(x[0].key, Null)] + rest), Fold(n), true) ==
      FoldedValue(FoldedFate(x, y, n), now, UnderFolded(x, n), UnderFolded(y, n), generate)
  {
    FateStep(x, y, n);
    FoldedHeads(x, n);
    hide UnderFolded;
    hide FoldedFate;
    hide Less;
    hide Fold;
    hide FoldedMet;
    hide Merged;
    hide Track;
    hide FoldMembers;
    FoldedCons(now, Member(x[0].key, Null), rest, n);
    if SameName(x[0].key, n) { FoldedInSecond(x[1..], y, n); }
  }

  lemma FoldedMissing(x: seq<Member>, y: seq<Member>, now: Option<Json>, rest: seq<Member>, n: string, generate: bool)
    requires FoldKeys(x) && FoldKeys(y) && y != [] && WalkDiff(x, y) > 0
    requires var now' := if SameName(y[0].key, n) then MergedValue(now, FoldNames(y[0].val), true) else now;
      Track(now', FoldMembers(rest), Fold(n), true) ==
      FoldedValue(FoldedFate(x, y[1..], n), now', UnderFolded(x, n), UnderFolded(y[1..], n), generate)
    ensures Track(now, FoldMembers([y[0]] + rest), Fold(n), true) ==
      FoldedValue(FoldedFate(x, y, n), now, UnderFolded(x, n), UnderFolded(y, n), generate)
  {
    FateStep(x, y, n);
    FoldedHeads(y, n);
    hide UnderFolded;
    hide FoldedFate;
    hide Less;
    hide Fold;
    hide FoldedMet;
    hide Merged;
    hide Track;
    hide FoldMembers;
    hide MergedValue;
    FoldedCons(now, y[0], rest, n);
    if SameName(y[0].key, n) {
      if UnderFolded(x, n).Some? { FoldedInFirst(x, y[1..], n); } else { FoldedInSecond(x, y[1..], n); }
    }
  }

  lemma FoldedMetTrack(parent: Json, x: Member, y: Member, now: Option<Json>, rest: seq<Member>, n: string, generate: bool)
    requires x.key == y.key && Depth(x.val) < Depth(parent)
    ensures Track(now, FoldMembers(GeneratedMember(parent, x, y, generate) + rest), Fold(n), true) ==
      Track(if SameName(x.key, n) then FoldedMet(now, x.val, y.val, generate) else now, FoldMembers(rest), Fold(n), true)
  {
    hide Merged;
    hide MergedValue;
    hide SortedEqual;
    hide Generated;
    hide Left;
    hide Track;
    hide FoldMembers;
    hide Fold;
    var step := GeneratedMember(parent, x, y, generate);
    if step == [] {
      assert step + rest == rest;
    } else {
      assert step == [step[0]];
      FoldedCons(now, step[0], rest, n);
    }
  }

  lemma FoldedCommon(parent: Json, x: seq<Member>, y: seq<Member>, now: Option<Json>, rest: seq<Member>, n: string, generate: bool)
    requires FoldKeys(x) && FoldKeys(y) && x != [] && y != [] && x[0].key == y[0].key && Depth(x[0].val) < Depth(parent)
    requires var now' := if SameName(x[0].key, n) then FoldedMet(now, x[0].val, y[0].val, generate) else now;
      Track(now', FoldMembers(rest), Fold(n), true) ==
      FoldedValue(FoldedFate(x[1..], y[1..], n), now', UnderFolded(x[1..], n), UnderFolded(y[1..], n), generate)
    ensures Track(now, FoldMembers(GeneratedMember(parent, x[0], y[0], generate) + rest), Fold(n), true) ==
      FoldedValue(FoldedFate(x, y, n), now, UnderFolded(x, n), UnderFolded(y, n), generate)
  {
    FateStep(x, y, n);
    FoldedHeads(x, n);
    FoldedHeads(y, n);
    hide UnderFolded;
    hide Fold;
    hide FoldedFate;
    hide Less;
    FoldedMetTrack(parent, x[0], y[0], now, rest, n, generate);
    hide Track;
    hide GeneratedMember;
    hide FoldedMet;
    hide MergedValue;
    if SameName(x[0].key, n) { FoldedInSecond(x[1..], y[1..], n); }
  }

  /** The generated patch does to each name, however it is spelled, what its fate says. */
  lemma {:induction false} FoldedTrack(parent: Json, x: seq<Member>, y: seq<Member>, now: Option<Json>, n: string, generate: bool)
    requires forall i :: 0 <= i < |x| ==> Depth(x[i].val) < Depth(parent)
    requires FoldKeys(x) && FoldKeys(y)
    ensures Track(now, FoldMembers(GeneratedMembers(parent, x, y, generate)), Fold(n), true) ==
      FoldedValue(FoldedFate(x, y, n), now, UnderFolded(x, n), UnderFolded(y, n), generate)
    decreases |x| + |y|
  {
    if x == [] && y == [] {
      NothingFolded(parent, now, n, generate);
      return;
    }
    hide Track;
    hide FoldedValue;
    hide FoldedFate;
    hide UnderFolded;
    hide Less;
    hide Fold;
    hide FoldMembers;
    hide GeneratedMember;
    hide MergedValue;
    hide FoldedMet;
    var diff := WalkDiff(x, y);
    if diff < 0 {
      FoldedTrack(parent, x[1..], y, if SameName(x[0].key, n) then None else now, n, generate);
      FoldedSurplus(x, y, now, GeneratedMembers(parent, x[1..], y, generate), n, generate);
    } else if diff > 0 {
      FoldedTrack(parent, x, y[1..], if SameName(y[0].key, n) then MergedValue(now, FoldNames(y[0].val), true) else now, n, generate);
      FoldedMissing(x, y, now, GeneratedMembers(parent, x, y[1..], generate), n, generate);
    } else {
      FoldedTrack(parent, x[1..], y[1..],
                  if SameName(x[0].key, n) then FoldedMet(now, x[0].val, y[0].val, generate) else now, n, generate);
      FoldedCommon(parent, x, y, now, GeneratedMembers(parent, x[1..], y[1..], generate), n, generate);
    }
  }

  lemma NothingFolded(parent: Json, now: Option<Json>, n: string, generate: bool)
    ensures Track(now, FoldMembers(GeneratedMembers(parent, [], [], generate)), Fold(n), true) ==
      FoldedValue(FoldedFate([], [], n), now, UnderFolded([], n), UnderFolded([], n), generate)
  {
    assert GeneratedMembers(parent, [], [], generate) == [];
  }

  // ----- the condition -----

  predicate FoldedFresh(v: Json) {
    !v.Null? && NoNullMember(FoldedMeaning(v))
  }

  /** As Mergeable, for names that may be spelled differently in the two trees. */
  predicate FoldedMergeable(have: Json, want: Json, generate: bool)
    decreases Depth(have), 1
  {
    if !have.Object? || !want.Object? then NoNullMember(FoldedMeaning(want)) else
      forall j :: 0 <= j < |want.members| ==> FoldedNameMergeable(have, want, want.members[j], generate)
  }

  predicate FoldedNameMergeable(have: Json, want: Json, m: Member, generate: bool)
    requires have.Object? && want.Object?
    decreases Depth(have), 0
  {
    var i := FindMember(have.members, m.key, false);
    if i == |have.members| then FoldedFresh(m.val) else
      match FoldedFate(SortMembers(have.members, generate), SortMembers(want.members, generate), m.key)
      case Met => FoldedValueMergeable(have.members[i].val, m.val, generate)
      case Replaced => FoldedFresh(m.val)
      case _ => false
  }

  predicate FoldedValueMergeable(u: Json, v: Json, generate: bool)
    decreases Depth(u), 2
  {
    if SortedEqual(u, v, generate) then FoldedMeaning(u) == FoldedMeaning(v) else
      var left := Left(u, v, generate);
      !v.Null? && FoldedMergeable(left.0, left.1, false)
  }

  // ----- the updated object -----

  lemma LookupFolded(ms: seq<Member>, n: string)
    ensures Lookup(FoldMembers(ms), Fold(n)) == FoldOption(UnderFolded(ms, n))
  {
    FindFolds(ms, n);
  }

  lemma SortedUnder(ms: seq<Member>, n: string, caseSensitive: bool)
    requires FoldKeys(ms) && UniqueKeys(ms)
    ensures var r := SortMembers(ms, caseSensitive); FoldKeys(r) && UnderFolded(r, n) == UnderFolded(ms, n)
  {
    hide SortMembers;
    hide Fold;
    hide UnderFolded;
    var r := SortMembers(ms, caseSensitive);
    PermutedKeys(ms, r);
    SameMembers(ms, r);
    forall i, j | 0 <= i < j < |r|
      ensures Fold(r[i].key) != Fold(r[j].key)
    {
      assert r[i] in ms && r[j] in ms && r[i].key != r[j].key;
    }
    SameUnder(ms, r, n);
  }

  /** The names of these members. */
  ghost function NamesIn(ms: seq<Member>, ps: seq<Member>): iset<string> {
    iset k | Lookup(ms, k).Some? || Lookup(ps, k).Some?
  }

  lemma NamesAreIn(ms: seq<Member>, ps: seq<Member>)
    requires UniqueKeys(ms)
    ensures Named(ms, NamesIn(ms, ps)) && forall i :: 0 <= i < |ps| ==> ps[i].key in NamesIn(ms, ps)
  {
  }

  lemma MergedTrack(t: seq<Member>, ps: seq<Member>, f: string)
    requires UniqueKeys(t)
    ensures var r := Merged(Some(Object(t)), Object(ps), true);
      r.Object? && Lookup(r.members, f) == Track(Lookup(t, f), ps, f, true)
  {
    hide Lookup;
    hide MergedMembers;
    hide Depth;
    var ks := NamesIn(t, ps);
    NamesAreIn(t, ps);
    MembersAreBelow(ps);
    MergedLookup(t, Object(ps), ps, f, ks, true);
  }

  lemma FoldedUpdated(now: Json, have: Json, want: Json, n: string, generate: bool)
    requires now.Object? && have.Object? && want.Object?
    requires FoldKeys(now.members) && FoldKeys(have.members) && FoldKeys(want.members)
    ensures var r := FoldNames(Updated(now, Generated(have, want, generate), false));
      var fate := FoldedFate(SortMembers(have.members, generate), SortMembers(want.members, generate), n);
      r.Object? && Lookup(r.members, Fold(n)) ==
        FoldedValue(fate, FoldOption(UnderFolded(now.members, n)), UnderFolded(have.members, n), UnderFolded(want.members, n), generate)
  {
    hide Lookup;
    hide FoldedFate;
    hide FoldedValue;
    hide SortMembers;
    hide UnderFolded;
    hide Merged;
    hide Fold;
    hide Depth;
    hide FoldMembers;
    var x, y := SortMembers(have.members, generate), SortMembers(want.members, generate);
    var here := FoldOption(UnderFolded(now.members, n));
    SortedDepth(have.members, generate);
    SortedUnder(have.members, n, generate);
    SortedUnder(want.members, n, generate);
    LookupFolded(now.members, n);
    FoldedTrack(have, x, y, here, n, generate);
    var ms := GeneratedMembers(have, x, y, generate);
    if ms == [] {
      NoTrack(here, n);
    } else {
      FoldedUnique(now.members);
      MergedFolds(Some(now), Object(ms));
      MergedTrack(FoldMembers(now.members), FoldMembers(ms), Fold(n));
    }
  }

  lemma NoTrack(now: Option<Json>, n: string)
    ensures Track(now, FoldMembers([]), Fold(n), true) == now
  {
  }

  lemma FoldedUnique(ms: seq<Member>)
    requires FoldKeys(ms)
    ensures UniqueKeys(FoldMembers(ms))
  {
  }

  lemma FoldedFateHere(have: Json, want: Json, n: string, generate: bool)
    requires have.Object? && want.Object? && FoldKeys(have.members) && FoldKeys(want.members)
    ensures var fate := FoldedFate(SortMembers(have.members, generate), SortMembers(want.members, generate), n);
      var u, v := UnderFolded(have.members, n), UnderFolded(want.members, n);
      if u.None? then fate == (if v.Some? then Fate.Added else Absent)
      else if v.None? then fate.Removed?
      else fate.Met? || fate.Replaced? || fate.Lost?
  {
    hide FoldedFate;
    hide SortMembers;
    hide UnderFolded;
    hide Fold;
    var x, y := SortMembers(have.members, generate), SortMembers(want.members, generate);
    SortedUnder(have.members, n, generate);
    SortedUnder(want.members, n, generate);
    if UnderFolded(x, n).None? {
      FoldedInSecond(x, y, n);
    } else if UnderFolded(y, n).None? {
      FoldedInFirst(x, y, n);
    } else {
      FoldedInBoth(x, y, n);
    }
  }

  lemma FoldedNameCases(have: Json, want: Json, m: Member, generate: bool)
    requires have.Object? && want.Object?
    ensures var u := UnderFolded(have.members, m.key);
      var fate := FoldedFate(SortMembers(have.members, generate), SortMembers(want.members, generate), m.key);
      FoldedNameMergeable(have, want, m, generate) <==>
        if u.None? then FoldedFresh(m.val)
        else if fate.Met? then FoldedValueMergeable(u.value, m.val, generate)
        else fate.Replaced? && FoldedFresh(m.val)
  {
    hide FoldedFate;
    hide SortMembers;
    hide FoldedValueMergeable;
  }

  /** What holds of a tree without repetitions holds of what it has under a name. */
  lemma UnderFacts(j: Json, n: string)
    requires j.Object? && FoldUnique(j)
    ensures FoldKeys(j.members)
    ensures var u := UnderFolded(j.members, n); u.Some? ==> FoldUnique(u.value) && Depth(u.value) < Depth(j)
    ensures OptMeaning(FoldOption(UnderFolded(j.members, n))) == Under(FoldedMeaning(j).m, Fold(n))
  {
    FoldUniqueKeys(j.members);
    LookupFolded(j.members, n);
    LookupMeaning(FoldMembers(j.members), Fold(n));
  }

  lemma {:induction false} FoldedNameRoundTrip(now: Json, have: Json, want: Json, n: string, generate: bool)
    requires now.Object? && have.Object? && want.Object? && FoldUnique(now) && FoldUnique(have) && FoldUnique(want)
    requires FoldedMeaning(now) == FoldedMeaning(have)
    ensures var r := FoldNames(Updated(now, Generated(have, want, generate), false));
      var v := UnderFolded(want.members, n);
      r.Object? && (OptMeaning(Lookup(r.members, Fold(n))) == OptMeaning(FoldOption(v)) <==>
        (v.Some? ==> FoldedNameMergeable(have, want, Member(n, v.value), generate)))
    decreases Depth(have), 0
  {
    hide Lookup;
    hide FoldedFate;
    hide SortMembers;
    hide Updated;
    hide FoldedNameMergeable;
    hide FoldedValueMergeable;
    hide FoldedMet;
    hide Merged;
    hide Generated;
    hide UnderFolded;
    hide FoldUnique;
    hide FoldNames;
    hide Fold;
    var c, u, v := UnderFolded(now.members, n), UnderFolded(have.members, n), UnderFolded(want.members, n);
    UnderFacts(now, n);
    UnderFacts(have, n);
    UnderFacts(want, n);
    FoldedUpdated(now, have, want, n, generate);
    FoldedFateHere(have, want, n, generate);
    if v.Some? {
      FoldedNameCases(have, want, Member(n, v.value), generate);
      FreshFolded(v.value);
      if u.Some? { FoldedValueRoundTrip(c.value, u.value, v.value, generate); }
    }
  }

  lemma FreshFolded(v: Json)
    requires FoldUnique(v)
    ensures OptMeaning(MergedValue(None, FoldNames(v), true)) == Some(FoldedMeaning(v)) <==> FoldedFresh(v)
  {
    hide Merged;
    assert FoldNames(v).Null? <==> v.Null?;
    MergedFresh(None, FoldNames(v), true);
  }

  lemma {:induction false} FoldedValueRoundTrip(now: Json, u: Json, v: Json, generate: bool)
    requires FoldUnique(now) && FoldUnique(u) && FoldUnique(v) && FoldedMeaning(now) == FoldedMeaning(u)
    ensures OptMeaning(FoldedMet(Some(FoldNames(now)), u, v, generate)) == Some(FoldedMeaning(v)) <==> FoldedValueMergeable(u, v, generate)
    decreases Depth(u), 2
  {
    hide SortedEqual;
    hide FoldedMergeable;
    hide FoldUnique;
    hide FoldNames;
    hide Left;
    hide Generated;
    hide Updated;
    hide Merged;
    if !SortedEqual(u, v, generate) {
      var left := Left(u, v, generate);
      LeftFolded(u, v, generate);
      UpdatedFolds(now, left.0, left.1, v);
      FoldedMergeRoundTrip(now, left.0, left.1, false);
    }
  }

  lemma LeftFolded(u: Json, v: Json, generate: bool)
    requires FoldUnique(u) && FoldUnique(v)
    ensures var left := Left(u, v, generate);
      FoldUnique(left.0) && FoldUnique(left.1) && FoldedMeaning(left.0) == FoldedMeaning(u) && FoldedMeaning(left.1) == FoldedMeaning(v) &&
      Meaning(left.1) == Meaning(v)
  {
    hide FoldUnique;
    hide FoldedMeaning;
    hide Left;
    hide Unique;
    var left := Left(u, v, generate);
    FoldUniqueMeans(u);
    FoldUniqueMeans(v);
    LeftMeans(u, v, generate);
    MeanSameFolded(left.0, u);
    MeanSameFolded(left.1, v);
  }

  /** What is there after the patch, with names folded. */
  lemma UpdatedFolds(now: Json, have: Json, want: Json, v: Json)
    requires Meaning(want) == Meaning(v)
    ensures var patch := Generated(have, want, false);
      var r := if patch.None? then Some(FoldNames(now)) else MergedValue(Some(FoldNames(now)), FoldNames(patch.value), true);
      if v.Null? then r.None? else r == Some(FoldNames(Updated(now, patch, false)))
  {
    hide FoldNames;
    hide Merged;
    FoldedPatch(have, want, v);
    hide Generated;
    var patch := Generated(have, want, false);
    if patch.Some? { MergedFolds(Some(now), patch.value); }
  }

  /** The generated patch is null exactly if the wanted value is. */
  lemma FoldedPatch(have: Json, want: Json, v: Json)
    requires Meaning(want) == Meaning(v)
    ensures var patch := Generated(have, want, false);
      patch.Some? ==> (patch.value.Null? <==> v.Null?) && (FoldNames(patch.value).Null? <==> v.Null?)
    ensures v.Null? ==> Generated(have, want, false).Some?
  {
  }

  /**
    Ignoring case, merging the generated patch, or none, into `have` or a duplicate of
    it gives what means `want` with names folded exactly when the two are mergeable.
   */
  lemma {:induction false} FoldedMergeRoundTrip(now: Json, have: Json, want: Json, generate: bool)
    requires FoldUnique(now) && FoldUnique(have) && FoldUnique(want) && FoldedMeaning(now) == FoldedMeaning(have)
    ensures FoldedMeaning(Updated(now, Generated(have, want, generate), false)) == FoldedMeaning(want) <==>
      FoldedMergeable(have, want, generate)
    decreases Depth(have), 1
  {
    hide FoldUnique;
    hide FoldNames;
    if !have.Object? || !want.Object? {
      FoldedLeaf(now, have, want, generate);
    } else {
      SameKindFolded(now, have);
      FoldedObjects(now, have, want, generate);
    }
  }

  lemma SameKindFolded(now: Json, have: Json)
    requires FoldedMeaning(now) == FoldedMeaning(have)
    ensures now.Object? <==> have.Object?
  {
  }

  lemma FoldedLeaf(now: Json, have: Json, want: Json, generate: bool)
    requires FoldUnique(now) && FoldUnique(have) && FoldUnique(want) && FoldedMeaning(now) == FoldedMeaning(have)
    requires !have.Object? || !want.Object?
    ensures FoldedMeaning(Updated(now, Generated(have, want, generate), false)) == FoldedMeaning(want) <==>
      FoldedMergeable(have, want, generate)
  {
    hide Merged;
    SameKindFolded(now, have);
    MergedFolds(Some(now), want);
    if want.Object? {
      MergedFresh(Some(FoldNames(now)), FoldNames(want), true);
    } else {
      NotAnObject(now, want);
    }
  }

  lemma NotAnObject(now: Json, want: Json)
    requires !want.Object?
    ensures Merged(Some(now), want, false) == want && NoNullMember(FoldedMeaning(want))
  {
  }

  lemma {:induction false} FoldedObjects(now: Json, have: Json, want: Json, generate: bool)
    requires now.Object? && have.Object? && want.Object?
    requires FoldUnique(now) && FoldUnique(have) && FoldUnique(want) && FoldedMeaning(now) == FoldedMeaning(have)
    ensures FoldedMeaning(Updated(now, Generated(have, want, generate), false)) == FoldedMeaning(want) <==>
      FoldedMergeable(have, want, generate)
    decreases Depth(have), 1, 0
  {
    hide Generated;
    hide FoldedMergeable;
    hide FoldedNameMergeable;
    hide FoldUnique;
    hide Updated;
    hide Lookup;
    hide UnderFolded;
    hide MembersMeaning;
    hide Fold;
    var r := FoldNames(Updated(now, Generated(have, want, generate), false));
    var w := FoldMembers(want.members);
    FoldedNameRoundTrip(now, have, want, "", generate);
    assert FoldNames(want) == Object(w);
    forall n
      ensures r.Object? && (OptMeaning(Lookup(r.members, Fold(n))) == OptMeaning(Lookup(w, Fold(n))) <==>
        (UnderFolded(want.members, n).Some? ==>
         FoldedNameMergeable(have, want, Member(n, UnderFolded(want.members, n).value), generate)))
    {
      FoldedNameRoundTrip(now, have, want, n, generate);
      LookupFolded(want.members, n);
    }
    OnlyFolded(Updated(now, Generated(have, want, generate), false), want);
    SameLookups(r.members, w);
    EveryFoldedName(have, want, generate);
  }

  /** No name is there but folded ones. */
  lemma OnlyFolded(a: Json, b: Json)
    requires FoldNames(a).Object? && b.Object?
    ensures var x, y := FoldNames(a).members, FoldMembers(b.members);
      (forall k :: OptMeaning(Lookup(x, k)) == OptMeaning(Lookup(y, k))) <==>
      forall n :: OptMeaning(Lookup(x, Fold(n))) == OptMeaning(Lookup(y, Fold(n)))
  {
    hide Lookup;
    hide Fold;
    hide Meaning;
    var x, y := FoldNames(a).members, FoldMembers(b.members);
    if forall n :: OptMeaning(Lookup(x, Fold(n))) == OptMeaning(Lookup(y, Fold(n))) {
      forall k
        ensures OptMeaning(Lookup(x, k)) == OptMeaning(Lookup(y, k))
      {
        IsFolded(a.members, k);
        IsFolded(b.members, k);
      }
    }
  }

  lemma IsFolded(ms: seq<Member>, k: string)
    ensures Lookup(FoldMembers(ms), k).Some? ==> exists n :: Fold(n) == k
  {
    var i := FindMember(FoldMembers(ms), k, true);
    if i < |ms| { assert FoldMembers(ms)[i] == FoldMember(ms[i]); }
  }

  lemma EveryFoldedName(have: Json, want: Json, generate: bool)
    requires have.Object? && want.Object? && FoldUnique(want)
    ensures FoldedMergeable(have, want, generate) <==> forall n :: UnderFolded(want.members, n).Some? ==>
      FoldedNameMergeable(have, want, Member(n, UnderFolded(want.members, n).value), generate)
  {
    hide FoldedNameMergeable;
    hide Fold;
    var w := want.members;
    FoldUniqueKeys(w);
    forall j | 0 <= j < |w|
      ensures UnderFolded(w, w[j].key) == Some(w[j].val)
    {
      UnderIs(w, w[j].key, j);
    }
    forall n | UnderFolded(w, n).Some?
      ensures exists j :: 0 <= j < |w| && SpelledAt(have, want, n, j, generate)
    {
      var j := FindMember(w, n, false);
      AnySpelling(have, want, w[j].key, n, w[j].val, generate);
      assert w[j] == Member(w[j].key, w[j].val) && SpelledAt(have, want, n, j, generate);
    }
  }

  ghost predicate SpelledAt(have: Json, want: Json, n: string, j: nat, generate: bool)
    requires have.Object? && want.Object? && j < |want.members|
  {
    var m := want.members[j];
    UnderFolded(want.members, n) == Some(m.val) &&
    (FoldedNameMergeable(have, want, m, generate) <==> FoldedNameMergeable(have, want, Member(n, m.val), generate))
  }

  /** The condition on a name does not depend on its spelling. */
  lemma AnySpelling(have: Json, want: Json, k: string, n: string, v: Json, generate: bool)
    requires have.Object? && want.Object? && Fold(k) == Fold(n)
    ensures FoldedNameMergeable(have, want, Member(k, v), generate) <==> FoldedNameMergeable(have, want, Member(n, v), generate)
  {
    hide SortMembers;
    hide FoldedValueMergeable;
    hide Fold;
    SameFind(have.members, k, n);
    SameFate(SortMembers(have.members, generate), SortMembers(want.members, generate), k, n);
  }

  lemma {:induction false} SameFind(ms: seq<Member>, k: string, n: string)
    requires Fold(k) == Fold(n)
    ensures FindMember(ms, k, false) == FindMember(ms, n, false)
  {
    if ms != [] { SameFind(ms[1..], k, n); }
  }

  lemma {:induction false} SameFate(x: seq<Member>, y: seq<Member>, k: string, n: string)
    requires Fold(k) == Fold(n)
    ensures FoldedFate(x, y, k) == FoldedFate(x, y, n)
    decreases |x| + |y|
  {
    hide Fold;
    hide Less;
    SameFind(x, k, n);
    SameFind(y, k, n);
    if x != [] || y != [] {
      var diff := WalkDiff(x, y);
      SameFate(if diff <= 0 then x[1..] else x, if diff >= 0 then y[1..] else y, k, n);
    }
  }

  /** A name that is only spelled differently survives exactly if its old spelling is sorted first. */
  lemma RespelledMember(k: string, u: Json, l: string, v: Json, generate: bool)
    requires k != l && Fold(k) == Fold(l)
    ensures FoldedMergeable(Object([Member(k, u)]), Object([Member(l, v)]), generate) <==> Less(k, l) && FoldedFresh(v)
  {
    hide Fold;
    hide Less;
    var x, y := [Member(k, u)], [Member(l, v)];
    assert SortMembers(x, generate) == x && SortMembers(y, generate) == y;
    UnderIs(x, l, 0);
    UnderIs(y, l, 0);
    assert FoldedFate(x, y, l) == if Less(k, l) then Fate.Replaced else Lost;
  }
}
