/**
  What ignoring case means: every function that ignores it does to a tree what the
  one that heeds it does to the tree with its names folded.
 */
module FoldedNames {
  import opened CStrings
  import opened JsonValues
  import opened Members
  import opened Compare
  import opened MergeValues
  import opened MergePatch

  // ----- folding the names of a tree -----

  function FoldNames(j: Json): Json
    decreases j
  {
    match j
    case Array(items) => Array(FoldItems(items))
    case Object(ms) => Object(FoldMembers(ms))
    case _ => j
  }

  function FoldItems(items: seq<Json>): (r: seq<Json>)
    ensures |r| == |items| && forall i :: 0 <= i < |items| ==> r[i] == FoldNames(items[i])
    decreases items
  {
    if items == [] then [] else [FoldNames(items[0])] + FoldItems(items[1..])
  }

  function FoldMember(m: Member): Member
    decreases m
  {
    Member(Fold(m.key), FoldNames(m.val))
  }

  function FoldMembers(ms: seq<Member>): (r: seq<Member>)
    ensures |r| == |ms| && forall i :: 0 <= i < |ms| ==> r[i] == FoldMember(ms[i])
    decreases ms
  {
    if ms == [] then [] else [FoldMember(ms[0])] + FoldMembers(ms[1..])
  }

  /** What a tree means to functions that ignore case. */
  function FoldedMeaning(j: Json): Value {
    Meaning(FoldNames(j))
  }

  /** No object of the tree has two names that are the same but for case. */
  predicate FoldUnique(j: Json) {
    Unique(FoldNames(j))
  }

  lemma {:induction false} FoldDepth(j: Json)
    ensures Depth(FoldNames(j)) == Depth(j)
    decreases j
  {
    match j {
      case Array(items) => FoldItemsDepth(items);
      case Object(ms) => FoldMembersDepth(ms);
      case _ =>
    }
  }

  lemma {:induction false} FoldItemsDepth(items: seq<Json>)
    ensures ItemsDepth(FoldItems(items)) == ItemsDepth(items)
    decreases items
  {
    if items != [] {
      FoldDepth(items[0]);
      FoldItemsDepth(items[1..]);
    }
  }

  lemma {:induction false} FoldMembersDepth(ms: seq<Member>)
    ensures MembersDepth(FoldMembers(ms)) == MembersDepth(ms)
    decreases ms
  {
    if ms != [] {
      FoldDepth(ms[0].val);
      FoldMembersDepth(ms[1..]);
    }
  }

  lemma {:induction false} FoldMembersConcat(a: seq<Member>, b: seq<Member>)
    ensures FoldMembers(a + b) == FoldMembers(a) + FoldMembers(b)
  {
  }

  // ----- looking up and comparing -----

  lemma {:induction false} FindFolds(ms: seq<Member>, name: string)
    ensures FindMember(ms, name, false) == FindMember(FoldMembers(ms), Fold(name), true)
  {
    if ms != [] {
      FindFolds(ms[1..], name);
      assert FoldMembers(ms)[1..] == FoldMembers(ms[1..]);
    }
  }

  lemma {:induction false} LookupFolds(a: Json, b: Json)
    ensures LookupEqual(a, b, false) <==> LookupEqual(FoldNames(a), FoldNames(b), true)
    decreases Depth(a) + Depth(b), 1
  {
    hide FindsAll;
    if a.Array? && b.Array? {
      var x, y := a.items, b.items;
      forall i | 0 <= i < |x| && i < |y|
        ensures LookupEqual(x[i], y[i], false) <==> LookupEqual(FoldItems(x)[i], FoldItems(y)[i], true)
      {
        LookupFolds(x[i], y[i]);
      }
    } else if a.Object? && b.Object? {
      FindsAllFolds(a, b);
      FindsAllFolds(b, a);
    }
  }

  lemma {:induction false} FindsAllFolds(a: Json, b: Json)
    requires a.Object? && b.Object?
    ensures FindsAll(a, b, false) <==> FindsAll(FoldNames(a), FoldNames(b), true)
    decreases Depth(a) + Depth(b), 0
  {
    var x, y, x', y' := a.members, b.members, FoldMembers(a.members), FoldMembers(b.members);
    assert FoldNames(a).members == x' && FoldNames(b).members == y';
    hide FoldMembers;
    forall i | 0 <= i < |x|
      ensures var k, k' := FindMember(y, x[i].key, false), FindMember(y', x'[i].key, true);
        k == k' && (k < |y| ==> (LookupEqual(x[i].val, y[k].val, false) <==> LookupEqual(x'[i].val, y'[k].val, true)))
    {
      FindFolds(y, x[i].key);
      var k := FindMember(y, x[i].key, false);
      if k < |y| { LookupFolds(x[i].val, y[k].val); }
    }
  }

  lemma BeforeFolds(a: Member, b: Member)
    ensures Before(a, b, false) <==> Before(FoldMember(a), FoldMember(b), true)
  {
  }

  lemma {:induction false} AscendingFolds(ms: seq<Member>)
    ensures Ascending(ms, false) <==> Ascending(FoldMembers(ms), true)
  {
    if |ms| > 1 {
      AscendingFolds(ms[1..]);
      BeforeFolds(ms[0], ms[1]);
      assert FoldMembers(ms)[1..] == FoldMembers(ms[1..]);
    }
  }

  lemma {:induction false} MergeFolds(a: seq<Member>, b: seq<Member>)
    ensures FoldMembers(Merge(a, b, false)) == Merge(FoldMembers(a), FoldMembers(b), true)
    decreases |a| + |b|
  {
    if a != [] && b != [] {
      hide Before;
      hide FoldMember;
      BeforeFolds(a[0], b[0]);
      assert FoldMembers(a)[1..] == FoldMembers(a[1..]) && FoldMembers(b)[1..] == FoldMembers(b[1..]);
      if Before(a[0], b[0], false) {
        MergeFolds(a[1..], b);
        FoldMembersConcat([a[0]], Merge(a[1..], b, false));
      } else {
        MergeFolds(a, b[1..]);
        FoldMembersConcat([b[0]], Merge(a, b[1..], false));
      }
    }
  }

  lemma SortHalves(ms: seq<Member>, caseSensitive: bool)
    ensures |ms| <= 1 || Ascending(ms, caseSensitive) ==> SortMembers(ms, caseSensitive) == ms
    ensures |ms| > 1 && !Ascending(ms, caseSensitive) ==> var mid := (|ms| + 1) / 2;
      SortMembers(ms, caseSensitive) ==
        Merge(SortMembers(ms[..mid], caseSensitive), SortMembers(ms[mid..], caseSensitive), caseSensitive)
  {
    hide Ascending;
    hide Merge;
  }

  /** Sorting ignoring case is sorting by the folded names. */
  lemma {:induction false} SortFolds(ms: seq<Member>)
    ensures FoldMembers(SortMembers(ms, false)) == SortMembers(FoldMembers(ms), true)
    decreases |ms|
  {
    hide SortMembers;
    hide Ascending;
    hide Merge;
    hide FoldMembers;
    AscendingFolds(ms);
    SortHalves(ms, false);
    SortHalves(FoldMembers(ms), true);
    if |ms| > 1 && !Ascending(ms, false) {
      var mid := (|ms| + 1) / 2;
      SortFolds(ms[..mid]);
      SortFolds(ms[mid..]);
      assert FoldMembers(ms)[..mid] == FoldMembers(ms[..mid]) && FoldMembers(ms)[mid..] == FoldMembers(ms[mid..]);
      MergeFolds(SortMembers(ms[..mid], false), SortMembers(ms[mid..], false));
    }
  }

  lemma {:induction false} SortedFolds(a: Json, b: Json)
    ensures SortedEqual(a, b, false) <==> SortedEqual(FoldNames(a), FoldNames(b), true)
    decreases Depth(a), 1, 0
  {
    hide WalkEqual;
    hide SortMembers;
    hide FoldMembers;
    if a.Array? && b.Array? {
      var x, y := a.items, b.items;
      forall i | 0 <= i < |x| && i < |y|
        ensures SortedEqual(x[i], y[i], false) <==> SortedEqual(FoldItems(x)[i], FoldItems(y)[i], true)
      {
        SortedFolds(x[i], y[i]);
      }
    } else if a.Object? && b.Object? {
      SortThenWalk(a, b, false);
      SortThenWalk(FoldNames(a), FoldNames(b), true);
      SortFolds(a.members);
      SortFolds(b.members);
      FoldDepth(a);
      WalkFolds(a, FoldNames(a), SortMembers(a.members, false), SortMembers(b.members, false));
    }
  }

  lemma {:induction false} WalkFolds(parent: Json, parent': Json, x: seq<Member>, y: seq<Member>)
    requires forall i :: 0 <= i < |x| ==> Depth(x[i].val) < Depth(parent)
    requires forall i :: 0 <= i < |x| ==> Depth(FoldMembers(x)[i].val) < Depth(parent')
    ensures WalkEqual(parent, x, y, false) <==> WalkEqual(parent', FoldMembers(x), FoldMembers(y), true)
    decreases Depth(parent), 0, |x|
  {
    hide SortedEqual;
    hide FoldMembers;
    hide Depth;
    WalkStep(parent, x, y, false);
    WalkStep(parent', FoldMembers(x), FoldMembers(y), true);
    if x != [] && y != [] {
      assert FoldMembers(x)[1..] == FoldMembers(x[1..]) && FoldMembers(y)[1..] == FoldMembers(y[1..]);
      SortedFolds(x[0].val, y[0].val);
      WalkFolds(parent, parent', x[1..], y[1..]);
    }
  }

  /**
    Ignoring case, the quadratic comparison holds exactly if the trees mean the same
    with their names folded.
   */
  lemma LookupDecidesFolded(a: Json, b: Json)
    requires FoldUnique(a) && FoldUnique(b)
    ensures LookupEqual(a, b, false) <==> FoldedMeaning(a) == FoldedMeaning(b)
  {
    hide LookupEqual;
    LookupFolds(a, b);
    LookupDecidesMeaning(FoldNames(a), FoldNames(b), true);
  }

  /** And so does the comparison that sorts. */
  lemma SortedDecidesFolded(a: Json, b: Json)
    requires FoldUnique(a) && FoldUnique(b)
    ensures SortedEqual(a, b, false) <==> FoldedMeaning(a) == FoldedMeaning(b)
  {
    hide SortedEqual;
    SortedFolds(a, b);
    SortedDecidesMeaning(FoldNames(a), FoldNames(b), true);
  }

  /** The two comparisons agree ignoring case wherever names are unique ignoring case. */
  lemma FoldedComparisonsAgree(a: Json, b: Json)
    requires FoldUnique(a) && FoldUnique(b)
    ensures LookupEqual(a, b, false) <==> SortedEqual(a, b, false)
  {
    hide LookupEqual;
    hide SortedEqual;
    LookupDecidesFolded(a, b);
    SortedDecidesFolded(a, b);
  }

  // ----- merging -----

  function FoldOption(j: Option<Json>): Option<Json> {
    if j.Some? then Some(FoldNames(j.value)) else None
  }

  lemma DetachedFolds(t: seq<Member>, name: string)
    ensures var (detached, rest) := Detached(t, name, false);
      Detached(FoldMembers(t), Fold(name), true) == (FoldOption(detached), FoldMembers(rest))
  {
    hide FoldMembers;
    FindFolds(t, name);
    var i := FindMember(t, name, false);
    if i < |t| { assert FoldMembers(RemoveAt(t, i)) == RemoveAt(FoldMembers(t), i); }
  }

  /** Merging a patch ignoring case is merging it with all names folded. */
  lemma {:induction false} MergedFolds(target: Option<Json>, patch: Json)
    ensures FoldNames(Merged(target, patch, false)) == Merged(FoldOption(target), FoldNames(patch), true)
    decreases Depth(patch), 1
  {
    if patch.Object? {
      FoldDepth(patch);
      assert MembersOf(FoldOption(target)) == FoldMembers(MembersOf(target));
      MergedMembersFold(MembersOf(target), patch, FoldNames(patch), patch.members);
    }
  }

  lemma {:induction false} MergedMembersFold(t: seq<Member>, patch: Json, patch': Json, ps: seq<Member>)
    requires forall i :: 0 <= i < |ps| ==> Depth(ps[i].val) < Depth(patch)
    requires forall i :: 0 <= i < |ps| ==> Depth(FoldMembers(ps)[i].val) < Depth(patch')
    ensures FoldMembers(MergedMembers(t, patch, ps, false)) == MergedMembers(FoldMembers(t), patch', FoldMembers(ps), true)
    decreases Depth(patch), 0, |ps|
  {
    hide FoldMembers;
    hide MergedMember;
    hide Depth;
    if ps != [] {
      assert FoldMembers(ps)[1..] == FoldMembers(ps[1..]);
      MergedMemberFolds(t, patch, patch', ps[0]);
      MergedMembersFold(MergedMember(t, patch, ps[0], false), patch, patch', ps[1..]);
    }
  }

  lemma {:induction false} MergedMemberFolds(t: seq<Member>, patch: Json, patch': Json, p: Member)
    requires Depth(p.val) < Depth(patch) && Depth(FoldMember(p).val) < Depth(patch')
    ensures FoldMembers(MergedMember(t, patch, p, false)) == MergedMember(FoldMembers(t), patch', FoldMember(p), true)
    decreases Depth(patch), 0, 0
  {
    hide FoldMembers;
    hide Detached;
    hide Merged;
    DetachedFolds(t, p.key);
    var (detached, rest) := Detached(t, p.key, false);
    if !p.val.Null? {
      var m := Member(p.key, Merged(detached, p.val, false));
      MergedFolds(detached, p.val);
      assert FoldMembers(rest + [m]) == FoldMembers(rest) + [FoldMember(m)];
    }
  }

  /** So merge_patch ignoring case is the MergePatch function of RFC 7396 on folded meanings. */
  lemma MergedFoldedMeaning(target: Option<Json>, patch: Json)
    requires FoldUnique(patch) && (target.Some? ==> FoldUnique(target.value))
    ensures FoldedMeaning(Merged(target, patch, false)) ==
      Rfc7396(if target.Some? then Some(FoldedMeaning(target.value)) else None, FoldedMeaning(patch))
    ensures FoldUnique(Merged(target, patch, false))
  {
    hide Merged;
    hide Rfc7396;
    MergedFolds(target, patch);
    MergedMeaning(FoldOption(target), FoldNames(patch), true);
  }

  /** So ignoring case too, applying a merge patch twice is applying it once. */
  lemma MergeFoldedIdempotent(target: Option<Json>, patch: Json)
    requires FoldUnique(patch) && (target.Some? ==> FoldUnique(target.value))
    ensures var once := Merged(target, patch, false);
      FoldedMeaning(Merged(Some(once), patch, false)) == FoldedMeaning(once)
  {
    hide Merged;
    hide Rfc7396;
    var once := Merged(target, patch, false);
    MergedFoldedMeaning(target, patch);
    MergedFoldedMeaning(Some(once), patch);
    MergeIdempotent(if target.Some? then Some(FoldedMeaning(target.value)) else None, FoldedMeaning(patch));
  }

  // ----- which spelling of a name survives -----

  predicate FoldKeys(ms: seq<Member>) {
    forall i, j :: 0 <= i < j < |ms| ==> Fold(ms[i].key) != Fold(ms[j].key)
  }

  /** What the target has under a name, however it is spelled there. */
  function UnderFolded(t: seq<Member>, name: string): Option<Json> {
    var i := FindMember(t, name, false);
    if i < |t| then Some(t[i].val) else None
  }

  lemma FoldUniqueKeys(ms: seq<Member>)
    requires FoldUnique(Object(ms))
    ensures FoldKeys(ms) && UniqueKeys(ms) && forall i :: 0 <= i < |ms| ==> FoldUnique(ms[i].val)
  {
    var fs := FoldMembers(ms);
    assert FoldNames(Object(ms)) == Object(fs);
    assert forall i :: 0 <= i < |ms| ==> fs[i].key == Fold(ms[i].key) && fs[i].val == FoldNames(ms[i].val);
  }

  lemma UnderIs(t: seq<Member>, name: string, i: nat)
    requires FoldKeys(t) && i < |t| && Fold(t[i].key) == Fold(name)
    ensures FindMember(t, name, false) == i
  {
  }

  ghost predicate Unnamed(m: Member, ps: seq<Member>) {
    forall i :: 0 <= i < |ps| ==> Fold(ps[i].key) != Fold(m.key)
  }

  ghost predicate FromPatch(m: Member, t: seq<Member>, ps: seq<Member>) {
    exists i :: 0 <= i < |ps| && !ps[i].val.Null? && m == Member(ps[i].key, Merged(UnderFolded(t, ps[i].key), ps[i].val, false))
  }

  /** What is left when a name is taken out. */
  lemma SpelledRest(t: seq<Member>, name: string)
    requires FoldKeys(t)
    ensures var rest := Detached(t, name, false).1;
      FoldKeys(rest) && (forall n :: 0 <= n < |rest| ==> Fold(rest[n].key) != Fold(name)) &&
      forall m :: m in rest <==> m in t && Fold(m.key) != Fold(name)
  {
    hide Fold;
    var i, rest := FindMember(t, name, false), Detached(t, name, false).1;
    forall n | 0 <= n < |rest|
      ensures rest[n] == t[if n < i then n else n + 1] && Fold(rest[n].key) != Fold(name)
    {
    }
    forall m
      ensures m in rest <==> m in t && Fold(m.key) != Fold(name)
    {
      if m in t && Fold(m.key) != Fold(name) {
        var n :| 0 <= n < |t| && t[n] == m;
        assert rest[if n < i then n else n - 1] == m;
      }
    }
  }

  /** One member of the patch. */
  lemma SpelledOnce(t: seq<Member>, parent: Json, p: Member)
    requires FoldKeys(t) && Depth(p.val) < Depth(parent)
    ensures var r := MergedMember(t, parent, p, false);
      FoldKeys(r) &&
      (forall m :: m in r <==> (m in t && Fold(m.key) != Fold(p.key)) || FromPatch(m, t, [p])) &&
      forall name :: Fold(name) != Fold(p.key) ==> UnderFolded(r, name) == UnderFolded(t, name)
  {
    hide Fold;
    hide Merged;
    var (detached, rest) := Detached(t, p.key, false);
    var i := FindMember(t, p.key, false);
    var r := MergedMember(t, parent, p, false);
    var added := if p.val.Null? then [] else [Member(p.key, Merged(detached, p.val, false))];
    assert r == rest + added;
    assert detached == UnderFolded(t, p.key);
    SpelledRest(t, p.key);
    forall m
      ensures m in added <==> FromPatch(m, t, [p])
    {
      assert [p][0] == p;
    }
    forall name | Fold(name) != Fold(p.key)
      ensures UnderFolded(r, name) == UnderFolded(t, name)
    {
      SameUnder(t, r, name);
    }
  }

  lemma SameUnder(t: seq<Member>, r: seq<Member>, name: string)
    requires FoldKeys(t) && FoldKeys(r) && forall m: Member :: Fold(m.key) == Fold(name) ==> (m in r <==> m in t)
    ensures UnderFolded(r, name) == UnderFolded(t, name)
  {
    hide Fold;
    var i, j := FindMember(t, name, false), FindMember(r, name, false);
    assert j < |r| ==> r[j] in t;
    if i < |t| {
      assert t[i] in t && t[i] in r;
      var n :| 0 <= n < |r| && r[n] == t[i];
      UnderIs(r, name, n);
    }
  }

  /**
    Ignoring case, the members after a merge are those whose name the patch does not
    have in any spelling, and what the patch has, in its own spelling.
   */
  lemma {:induction false} MergedSpelling(t: seq<Member>, parent: Json, ps: seq<Member>)
    requires FoldKeys(t) && FoldKeys(ps) && forall i :: 0 <= i < |ps| ==> Depth(ps[i].val) < Depth(parent)
    ensures var r := MergedMembers(t, parent, ps, false);
      FoldKeys(r) && forall m :: m in r <==> (m in t && Unnamed(m, ps)) || FromPatch(m, t, ps)
    decreases |ps|
  {
    hide Fold;
    hide Merged;
    hide MergedMember;
    hide UnderFolded;
    if ps != [] {
      var p, rest, t' := ps[0], ps[1..], MergedMember(t, parent, ps[0], false);
      SpelledOnce(t, parent, p);
      MergedSpelling(t', parent, rest);
      forall m
        ensures ((m in t' && Unnamed(m, rest)) || FromPatch(m, t', rest)) <==> (m in t && Unnamed(m, ps)) || FromPatch(m, t, ps)
      {
        SpelledStep(m, t, t', ps);
      }
    }
  }

  lemma SpelledStep(m: Member, t: seq<Member>, t': seq<Member>, ps: seq<Member>)
    requires ps != [] && FoldKeys(ps)
    requires m in t' <==> (m in t && Fold(m.key) != Fold(ps[0].key)) || FromPatch(m, t, [ps[0]])
    requires forall name :: Fold(name) != Fold(ps[0].key) ==> UnderFolded(t', name) == UnderFolded(t, name)
    ensures ((m in t' && Unnamed(m, ps[1..])) || FromPatch(m, t', ps[1..])) <==> (m in t && Unnamed(m, ps)) || FromPatch(m, t, ps)
  {
    hide Fold;
    hide Merged;
    hide UnderFolded;
    var rest := ps[1..];
    assert forall i :: 0 <= i < |rest| ==> rest[i] == ps[i + 1] && UnderFolded(t', rest[i].key) == UnderFolded(t, rest[i].key);
    assert forall i :: 0 < i < |ps| ==> ps[i] == rest[i - 1];
    assert Unnamed(m, ps) <==> Fold(m.key) != Fold(ps[0].key) && Unnamed(m, rest);
    assert FromPatch(m, t', rest) <==> FromPatch(m, t, rest);
    assert FromPatch(m, t, ps) <==> FromPatch(m, t, [ps[0]]) || FromPatch(m, t, rest) by {
      assert [ps[0]][0] == ps[0];
    }
    if FromPatch(m, t, [ps[0]]) {
      assert m.key == ps[0].key;
      assert Unnamed(m, rest);
    }
  }

  // ----- which names are the same -----

  /** The same byte, or the two cases of one letter. */
  predicate SameLetter(c: char, d: char) {
    c == d || ('A' <= c <= 'Z' && d as int == c as int + 32) || ('A' <= d <= 'Z' && c as int == d as int + 32)
  }

  lemma FoldSame(a: string, b: string)
    ensures Fold(a) == Fold(b) <==> |a| == |b| && forall i :: 0 <= i < |a| ==> SameLetter(a[i], b[i])
  {
    if Fold(a) == Fold(b) {
      forall i | 0 <= i < |a|
        ensures SameLetter(a[i], b[i])
      {
        assert Fold(a)[i] == Fold(b)[i];
      }
    }
  }
}
