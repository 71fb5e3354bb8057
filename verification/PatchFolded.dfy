/**
  JSON Patch between documents that spell names differently, in the functions that
  ignore case: the patches are those for the second document with the names spelled
  as in the first, and lead there.
 */
module PatchFolded {
  import opened CStrings
  import opened Decimals
  import opened JsonValues
  import opened Members
  import opened Compare
  import opened Pointers
  import opened JsonPatch
  import opened PatchLocality
  import opened PatchTurns
  import opened PatchRoundTrip
  import opened FoldedNames

  // ----- the spelling of another document -----

  /** The second tree, with each name that the first has in the same object spelled as there. */
  function Respelled(want: Json, have: Json): Json
    decreases want
  {
    match want
    case Array(items) => if have.Array? then Array(RespelledItems(items, have.items)) else want
    case Object(ms) => if have.Object? then Object(RespelledMembers(ms, have.members)) else want
    case _ => want
  }

  function RespelledItems(items: seq<Json>, have: seq<Json>): (r: seq<Json>)
    ensures |r| == |items|
    ensures forall i :: 0 <= i < |items| ==> r[i] == if i < |have| then Respelled(items[i], have[i]) else items[i]
    decreases items
  {
    if items == [] || have == [] then items else [Respelled(items[0], have[0])] + RespelledItems(items[1..], have[1..])
  }

  function RespelledMember(m: Member, have: seq<Member>): Member
    decreases m
  {
    var i := FindMember(have, m.key, false);
    if i < |have| then Member(have[i].key, Respelled(m.val, have[i].val)) else m
  }

  function RespelledMembers(ms: seq<Member>, have: seq<Member>): (r: seq<Member>)
    ensures |r| == |ms| && forall i :: 0 <= i < |ms| ==> r[i] == RespelledMember(ms[i], have)
    decreases ms
  {
    if ms == [] then [] else [RespelledMember(ms[0], have)] + RespelledMembers(ms[1..], have)
  }

  /** But for the spelling it is the same. */
  lemma {:induction false} RespelledFolds(want: Json, have: Json)
    ensures FoldNames(Respelled(want, have)) == FoldNames(want)
    decreases want
  {
    match want {
      case Array(items) =>
        if have.Array? {
          var r := RespelledItems(items, have.items);
          forall i | 0 <= i < |items|
            ensures FoldItems(r)[i] == FoldItems(items)[i]
          {
            if i < |have.items| { RespelledFolds(items[i], have.items[i]); }
          }
          assert FoldItems(r) == FoldItems(items);
        }
      case Object(ms) =>
        if have.Object? {
          var r := RespelledMembers(ms, have.members);
          forall i | 0 <= i < |ms|
            ensures FoldMembers(r)[i] == FoldMembers(ms)[i]
          {
            RespelledOne(ms[i], have.members);
          }
          assert FoldMembers(r) == FoldMembers(ms);
        }
      case _ =>
    }
  }

  lemma {:induction false} RespelledOne(m: Member, have: seq<Member>)
    ensures FoldMember(RespelledMember(m, have)) == FoldMember(m)
    decreases m
  {
    var i := FindMember(have, m.key, false);
    if i < |have| {
      assert View(have[i].key, false) == View(m.key, false);
      RespelledFolds(m.val, have[i].val);
    }
  }

  // ----- sorting does not look at the spelling -----

  /** Two lists with the same names but for case, member by member from the same places of two others. */
  ghost predicate Parallel(a: seq<Member>, a': seq<Member>, ms: seq<Member>, ms': seq<Member>) {
    |a| == |a'| && |ms| == |ms'| && (forall i :: 0 <= i < |ms| ==> Fold(ms[i].key) == Fold(ms'[i].key)) &&
    forall k :: 0 <= k < |a| ==> FromPlace(a[k], a'[k], ms, ms')
  }

  ghost predicate FromPlace(m: Member, m': Member, ms: seq<Member>, ms': seq<Member>)
    requires |ms| == |ms'|
  {
    exists i :: 0 <= i < |ms| && m == ms[i] && m' == ms'[i]
  }

  lemma SameBefore(a: Member, a': Member, b: Member, b': Member)
    requires Fold(a.key) == Fold(a'.key) && Fold(b.key) == Fold(b'.key)
    ensures Before(a, b, false) == Before(a', b', false)
  {
  }

  lemma ParallelKeys(a: seq<Member>, a': seq<Member>, ms: seq<Member>, ms': seq<Member>)
    requires Parallel(a, a', ms, ms')
    ensures forall k :: 0 <= k < |a| ==> Fold(a[k].key) == Fold(a'[k].key)
  {
    hide Fold;
    forall k | 0 <= k < |a|
      ensures Fold(a[k].key) == Fold(a'[k].key)
    {
      assert FromPlace(a[k], a'[k], ms, ms');
    }
  }

  lemma {:induction false} ParallelMerge(a: seq<Member>, a': seq<Member>, b: seq<Member>, b': seq<Member>, ms: seq<Member>, ms': seq<Member>)
    requires Parallel(a, a', ms, ms') && Parallel(b, b', ms, ms')
    ensures Parallel(Merge(a, b, false), Merge(a', b', false), ms, ms')
    decreases |a| + |b|
  {
    hide Fold;
    hide Before;
    hide FromPlace;
    if a != [] && b != [] {
      ParallelKeys(a, a', ms, ms');
      ParallelKeys(b, b', ms, ms');
      SameBefore(a[0], a'[0], b[0], b'[0]);
      if Before(a[0], b[0], false) {
        ParallelMerge(a[1..], a'[1..], b, b', ms, ms');
      } else {
        ParallelMerge(a, a', b[1..], b'[1..], ms, ms');
      }
    }
  }

  lemma {:induction false} ParallelAscending(a: seq<Member>, a': seq<Member>, ms: seq<Member>, ms': seq<Member>)
    requires Parallel(a, a', ms, ms')
    ensures Ascending(a, false) == Ascending(a', false)
    decreases |a|
  {
    hide Fold;
    hide Before;
    hide FromPlace;
    if |a| > 1 {
      ParallelKeys(a, a', ms, ms');
      SameBefore(a[0], a'[0], a[1], a'[1]);
      ParallelAscending(a[1..], a'[1..], ms, ms');
    }
  }

  lemma {:induction false} ParallelSort(a: seq<Member>, a': seq<Member>, ms: seq<Member>, ms': seq<Member>)
    requires Parallel(a, a', ms, ms')
    ensures Parallel(SortMembers(a, false), SortMembers(a', false), ms, ms')
    decreases |a|
  {
    hide Fold;
    hide FromPlace;
    hide Ascending;
    hide Merge;
    hide SortMembers;
    SortHalves(a, false);
    SortHalves(a', false);
    ParallelAscending(a, a', ms, ms');
    if |a| > 1 && !Ascending(a, false) {
      var mid := (|a| + 1) / 2;
      ParallelSort(a[..mid], a'[..mid], ms, ms');
      ParallelSort(a[mid..], a'[mid..], ms, ms');
      ParallelMerge(SortMembers(a[..mid], false), SortMembers(a'[..mid], false),
                    SortMembers(a[mid..], false), SortMembers(a'[mid..], false), ms, ms');
    }
  }

  // ----- the patches do not look at it either -----

  lemma NameIsThere(ms: seq<Member>, k: string) returns (i: nat)
    requires k in MembersMeaning(ms)
    ensures i < |ms| && ms[i].key == k
  {
    FindMeaning(ms, k);
    i := FindMember(ms, k, true);
  }

  lemma AlikeInjective(a: seq<Member>, b: seq<Member>)
    requires FoldKeys(a) && FoldKeys(b)
    requires forall i, j :: 0 <= i < |a| && 0 <= j < |b| && Fold(a[i].key) == Fold(b[j].key) ==> a[i].key == b[j].key
    ensures FoldInjective(KeysOf(MembersMeaning(a), MembersMeaning(b)))
  {
    hide Fold;
    hide MembersMeaning;
    var p, q := MembersMeaning(a), MembersMeaning(b);
    forall k, l | k in KeysOf(p, q) && l in KeysOf(p, q) && Fold(k) == Fold(l)
      ensures k == l
    {
      var i, j;
      if k in p { i := NameIsThere(a, k); } else { i := NameIsThere(b, k); }
      if l in p { j := NameIsThere(a, l); } else { j := NameIsThere(b, l); }
    }
  }

  /** The names of the first object, and those of the second spelled as there, do not differ in case only. */
  lemma SpelledAlike(have: seq<Member>, want: seq<Member>)
    requires FoldKeys(have) && FoldKeys(want)
    ensures var w := RespelledMembers(want, have);
      UniqueKeys(have) && UniqueKeys(w) && FoldKeys(w) && FoldInjective(KeysOf(MembersMeaning(have), MembersMeaning(w)))
  {
    hide Fold;
    hide MembersMeaning;
    hide FoldInjective;
    hide Respelled;
    var w := RespelledMembers(want, have);
    forall i | 0 <= i < |w|
      ensures Fold(w[i].key) == Fold(want[i].key)
    {
      KeyRespelled(want[i], have);
    }
    forall i, j | 0 <= i < |have| && 0 <= j < |w| && Fold(have[i].key) == Fold(w[j].key)
      ensures have[i].key == w[j].key
    {
      UnderIs(have, want[j].key, i);
    }
    AlikeInjective(have, w);
  }

  /** Each name is spelled as in what is left of the first object, or is not in that object at all. */
  ghost predicate Spelling(x: seq<Member>, y: seq<Member>, y': seq<Member>, have: seq<Member>) {
    |y| == |y'| && (forall k :: 0 <= k < |y| ==> y'[k] == RespelledMember(y[k], have) && Fold(y'[k].key) == Fold(y[k].key)) &&
    (forall k :: 0 <= k < |y| ==> FindMember(have, y[k].key, false) == |have| || Lookup(x, y'[k].key).Some?) &&
    forall i :: 0 <= i < |x| ==> x[i] in have
  }

  lemma SpellingGoesOn(t: Turn, x: seq<Member>, y: seq<Member>, y': seq<Member>, x2: seq<Member>, y2: seq<Member>, y2': seq<Member>,
                       have: seq<Member>)
    requires Spelling(x, y, y', have) && UniqueKeys(x) && UniqueKeys(y') && TurnOf(t, x, y')
    requires Lookup(x2, t.key).None? && Lookup(y2', t.key).None?
    requires x2 == x || (x != [] && x[0].key == t.key && x2 == x[1..])
    requires if y2' == y' then y2 == y else y' != [] && y'[0].key == t.key && y2' == y'[1..] && y2 == y[1..]
    ensures Spelling(x2, y2, y2', have)
  {
    hide Fold;
    hide RespelledMember;
    hide FindMember;
    forall k | 0 <= k < |y2|
      ensures FindMember(have, y2[k].key, false) == |have| || Lookup(x2, y2'[k].key).Some?
    {
      NotTurned(y2', k, t.key);
      Heads(x, y2'[k].key);
      var m := if y2' == y' then k else k + 1;
      assert y2[k] == y[m] && y2'[k] == y'[m];
    }
  }

  lemma NotTurned(ms: seq<Member>, k: nat, key: string)
    requires k < |ms| && Lookup(ms, key).None?
    ensures ms[k].key != key
  {
  }

  lemma {:induction false} MembersRespelled(path: string, parent: Json, x: seq<Member>, y: seq<Member>, y': seq<Member>,
                                            have: seq<Member>, ks: iset<string>)
    requires forall i :: 0 <= i < |x| ==> Depth(x[i].val) < Depth(parent) && FoldUnique(x[i].val)
    requires (forall k :: 0 <= k < |y| ==> FoldUnique(y[k].val)) && FoldKeys(have)
    requires SortedKeyed(x, ks, false) && SortedKeyed(y', ks, false) && FoldInjective(ks) && Spelling(x, y, y', have)
    ensures CreateMembers(path, parent, x, y, false) == CreateMembers(path, parent, x, y', false)
    decreases Depth(parent), 0, |x| + |y|
  {
    hide Create;
    hide Compose;
    hide FoldInjective;
    hide Depth;
    hide FoldUnique;
    if x != [] || y != [] {
      var t, x2, y2' := HeadTurn(x, y', ks, false);
      var y2 := if y2' == y' then y else y[1..];
      SameSign(x, y, y');
      FirstIs(x, y');
      SpellingGoesOn(t, x, y, y', x2, y2, y2', have);
      TurnRespelled(x, y, y', t, have);
      hide SortedKeyed;
      hide Spelling;
      hide Turns;
      var diff := WalkSign(x, y, false);
      if diff == 0 {
        CreateRespelled(Extend(path, x[0].key), x[0].val, y[0].val);
      }
      MembersRespelled(path, parent, x2, y2, y2', have, ks);
    }
  }

  lemma FirstIs(x: seq<Member>, y: seq<Member>)
    requires x != [] || y != []
    ensures var diff, ts := WalkSign(x, y, false), Turns(x, y, false);
      ts != [] && ts[0] == if diff == 0 then Common(x[0].key, x[0].val, y[0].val)
                           else if diff < 0 then Surplus(x[0].key) else Missing(y[0].key, y[0].val)
  {
  }

  lemma SameSign(x: seq<Member>, y: seq<Member>, y': seq<Member>)
    requires |y| == |y'| && (y != [] ==> Fold(y'[0].key) == Fold(y[0].key))
    ensures WalkSign(x, y, false) == WalkSign(x, y', false)
  {
  }

  /** What the walk finds in both is spelled as in the first, and what it finds in the second only is as it was. */
  lemma TurnRespelled(x: seq<Member>, y: seq<Member>, y': seq<Member>, t: Turn, have: seq<Member>)
    requires Spelling(x, y, y', have) && FoldKeys(have) && TurnOf(t, x, y') && (x != [] || y != [])
    requires var diff := WalkSign(x, y, false);
      (diff == 0 ==> t.key == x[0].key) && (diff < 0 ==> t == Surplus(x[0].key)) && (diff > 0 ==> t == Missing(y'[0].key, y'[0].val))
    ensures var diff := WalkSign(x, y, false);
      (diff == 0 ==> y'[0].val == Respelled(y[0].val, x[0].val)) && (diff > 0 ==> y'[0] == y[0])
  {
    hide Fold;
    var diff := WalkSign(x, y, false);
    if diff == 0 {
      assert Fold(x[0].key) == Fold(y[0].key);
      var i :| 0 <= i < |have| && have[i] == x[0];
      UnderIs(have, y[0].key, i);
    }
  }

  lemma {:induction false} ItemsRespelled(path: string, have: Json, want: seq<Json>, i: nat)
    requires have.Array? && i <= |have.items| && i <= |want|
    requires (forall n :: 0 <= n < |have.items| ==> FoldUnique(have.items[n])) && forall n :: 0 <= n < |want| ==> FoldUnique(want[n])
    ensures CreateItems(path, have, want, i, false) == CreateItems(path, have, RespelledItems(want, have.items), i, false)
    decreases Depth(have), 0, |want| - i
  {
    hide Create;
    hide FoldUnique;
    hide Respelled;
    var w := RespelledItems(want, have.items);
    hide RespelledItems;
    if i < |have.items| && i < |want| {
      CreateRespelled(path + "/" + Decimal(i), have.items[i], want[i]);
      ItemsRespelled(path, have, want, i + 1);
    } else {
      RestRespelled(path, want, w, i);
    }
  }

  lemma {:induction false} RestRespelled(path: string, want: seq<Json>, w: seq<Json>, i: nat)
    requires i <= |want| == |w| && forall n :: i <= n < |want| ==> w[n] == want[n]
    ensures AddRest(path, want, i) == AddRest(path, w, i)
    decreases |want| - i
  {
    if i < |want| { RestRespelled(path, want, w, i + 1); }
  }

  /** The patches are those for the second document with names spelled as in the first. */
  lemma {:induction false} CreateRespelled(path: string, have: Json, want: Json)
    requires FoldUnique(have) && FoldUnique(want)
    ensures Create(path, have, want, false) == Create(path, have, Respelled(want, have), false)
    decreases Depth(have), 2
  {
    hide Create;
    hide CreateItems;
    hide CreateSorted;
    var w := Respelled(want, have);
    CreateCases(path, have, want, false);
    CreateCases(path, have, w, false);
    if Replaced(have, want) {
      assert w == want;
    } else if have.Array? {
      assert FoldNames(have) == Array(FoldItems(have.items)) && FoldNames(want) == Array(FoldItems(want.items));
      assert forall n :: 0 <= n < |have.items| ==> FoldItems(have.items)[n] == FoldNames(have.items[n]);
      assert forall n :: 0 <= n < |want.items| ==> FoldItems(want.items)[n] == FoldNames(want.items[n]);
      ItemsRespelled(path, have, want.items, 0);
    } else if have.Object? {
      SortedRespelled(path, have, want.members);
    }
  }

  lemma {:induction false} SortedRespelled(path: string, have: Json, want: seq<Member>)
    requires have.Object? && FoldUnique(have) && FoldUnique(Object(want))
    ensures CreateSorted(path, have, want, false) == CreateSorted(path, have, RespelledMembers(want, have.members), false)
    decreases Depth(have), 1
  {
    hide SortMembers;
    hide CreateMembers;
    hide FoldUnique;
    hide FoldInjective;
    hide MembersMeaning;
    hide Depth;
    hide Fold;
    var f, w := have.members, RespelledMembers(want, have.members);
    FoldUniqueKeys(f);
    FoldUniqueKeys(want);
    SpelledAlike(f, want);
    var ks := KeysOf(MembersMeaning(f), MembersMeaning(w));
    NamedBy(f, ks);
    NamedBy(w, ks);
    SortObject(f, ks, false);
    SortObject(w, ks, false);
    SortedDepth(f, false);
    SortedSpelling(f, want);
    SortedParts(f);
    SortedParts(want);
    MembersRespelled(path, have, SortMembers(f, false), SortMembers(want, false), SortMembers(w, false), f, ks);
  }

  lemma SortedParts(ms: seq<Member>)
    requires forall i :: 0 <= i < |ms| ==> FoldUnique(ms[i].val)
    ensures forall i :: 0 <= i < |SortMembers(ms, false)| ==> FoldUnique(SortMembers(ms, false)[i].val)
  {
    hide SortMembers;
    hide FoldUnique;
    var r := SortMembers(ms, false);
    SameMembers(ms, r);
    assert forall i :: 0 <= i < |r| ==> r[i] in ms;
  }

  lemma SortedSpelling(have: seq<Member>, want: seq<Member>)
    requires FoldKeys(have) && FoldKeys(want)
    ensures Spelling(SortMembers(have, false), SortMembers(want, false), SortMembers(RespelledMembers(want, have), false), have)
  {
    hide SortMembers;
    hide Fold;
    hide Respelled;
    hide RespelledMembers;
    var w := RespelledMembers(want, have);
    var x, y, y' := SortMembers(have, false), SortMembers(want, false), SortMembers(w, false);
    SpelledAlike(have, want);
    SameMembers(have, x);
    forall i | 0 <= i < |want|
      ensures Fold(want[i].key) == Fold(w[i].key) && FromPlace(want[i], w[i], want, w)
    {
      KeyRespelled(want[i], have);
    }
    ParallelSort(want, w, want, w);
    assert forall i :: 0 <= i < |x| ==> x[i] in have;
    forall k | 0 <= k < |y|
      ensures y'[k] == RespelledMember(y[k], have) && Fold(y'[k].key) == Fold(y[k].key)
      ensures FindMember(have, y[k].key, false) == |have| || Lookup(x, y'[k].key).Some?
    {
      assert FromPlace(y[k], y'[k], want, w);
      KeyRespelled(y[k], have);
      SortedLookup(have, y'[k].key, false);
    }
  }

  lemma KeyRespelled(m: Member, have: seq<Member>)
    ensures Fold(RespelledMember(m, have).key) == Fold(m.key)
    ensures FindMember(have, m.key, false) == |have| || Lookup(have, RespelledMember(m, have).key).Some?
  {
    var i := FindMember(have, m.key, false);
    if i < |have| { assert View(have[i].key, false) == View(m.key, false); }
  }

  // ----- and they lead there -----

  lemma {:induction false} RespelledApart(have: Json, want: Json)
    requires FoldUnique(have) && FoldUnique(want)
    ensures Apart(Meaning(have), Meaning(Respelled(want, have)))
    decreases want
  {
    match (have, want) {
      case (Array(x), Array(y)) => ItemsApart(x, y);
      case (Object(x), Object(y)) => MembersApart(x, y);
      case _ =>
    }
  }

  lemma {:induction false} ItemsApart(x: seq<Json>, y: seq<Json>)
    requires FoldUnique(Array(x)) && FoldUnique(Array(y))
    ensures Apart(Meaning(Array(x)), Meaning(Array(RespelledItems(y, x))))
    decreases y
  {
    hide Respelled;
    assert FoldNames(Array(x)) == Array(FoldItems(x)) && FoldNames(Array(y)) == Array(FoldItems(y));
    assert forall n :: 0 <= n < |x| ==> FoldItems(x)[n] == FoldNames(x[n]);
    assert forall n :: 0 <= n < |y| ==> FoldItems(y)[n] == FoldNames(y[n]);
    forall i | 0 <= i < |x| && i < |y|
      ensures Apart(ItemsMeaning(x)[i], ItemsMeaning(RespelledItems(y, x))[i])
    {
      RespelledApart(x[i], y[i]);
    }
  }

  lemma {:induction false} MembersApart(x: seq<Member>, y: seq<Member>)
    requires FoldUnique(Object(x)) && FoldUnique(Object(y))
    ensures Apart(Meaning(Object(x)), Meaning(Object(RespelledMembers(y, x))))
    decreases y
  {
    hide FoldInjective;
    hide Fold;
    var w := RespelledMembers(y, x);
    FoldUniqueKeys(x);
    FoldUniqueKeys(y);
    SpelledAlike(x, y);
    var p, q := MembersMeaning(x), MembersMeaning(w);
    forall k | k in p && k in q
      ensures Apart(p[k], q[k])
    {
      FindMeaning(x, k);
      FindMeaning(w, k);
      var i, j := FindMember(x, k, true), FindMember(w, k, true);
      assert Fold(w[j].key) == Fold(y[j].key) by { KeyRespelled(y[j], x); }
      UnderIs(x, y[j].key, i);
      RespelledApart(x[i].val, y[j].val);
    }
  }

  lemma {:induction false} RespelledAddressable(want: Json, have: Json)
    requires FoldUnique(want) && FoldUnique(have) && Addressable(want, true)
    ensures Addressable(Respelled(want, have), true)
    decreases want
  {
    match want {
      case Array(items) => if have.Array? { ItemsAddressable(items, have.items); }
      case Object(ms) => if have.Object? { MembersAddressable(ms, have.members); }
      case _ =>
    }
  }

  lemma {:induction false} ItemsAddressable(items: seq<Json>, have: seq<Json>)
    requires FoldUnique(Array(items)) && FoldUnique(Array(have)) && Addressable(Array(items), true)
    ensures Addressable(Array(RespelledItems(items, have)), true)
    decreases items
  {
    hide Respelled;
    assert FoldNames(Array(items)) == Array(FoldItems(items)) && FoldNames(Array(have)) == Array(FoldItems(have));
    assert forall n :: 0 <= n < |items| ==> FoldItems(items)[n] == FoldNames(items[n]);
    assert forall n :: 0 <= n < |have| ==> FoldItems(have)[n] == FoldNames(have[n]);
    forall i | 0 <= i < |items|
      ensures Addressable(RespelledItems(items, have)[i], true)
    {
      if i < |have| { RespelledAddressable(items[i], have[i]); }
    }
  }

  lemma {:induction false} MembersAddressable(ms: seq<Member>, have: seq<Member>)
    requires FoldUnique(Object(ms)) && FoldUnique(Object(have)) && Addressable(Object(ms), true)
    ensures Addressable(Object(RespelledMembers(ms, have)), true)
    decreases ms
  {
    hide FoldInjective;
    hide FoldUnique;
    var w := RespelledMembers(ms, have);
    FoldUniqueKeys(ms);
    FoldUniqueKeys(have);
    SpelledAlike(have, ms);
    forall i | 0 <= i < |w|
      ensures Addressable(w[i].val, true)
    {
      var n := FindMember(have, ms[i].key, false);
      if n < |have| { RespelledAddressable(ms[i].val, have[n].val); }
    }
  }

  /**
    Ignoring case, the patches between any two documents without repetitions, applied
    to a duplicate of the first, succeed and give the second, each name spelled as in
    the first where that has it, if every name in which a path ends survives; and only
    then, as far as what the decoder makes of the names keeps them apart.
   */
  lemma FoldedRoundTrip(have: Json, want: Json, duplicate: Json)
    requires WellFormed(have) && WellFormed(want) && WellFormed(duplicate) && Meaning(duplicate) == Meaning(have)
    requires FoldUnique(have) && FoldUnique(want)
    ensures var w, r := Respelled(want, have), ApplyAll(duplicate, Create("", have, want, false), false);
      var leads := r.Patched? && r.status == 0 && Meaning(r.doc) == Meaning(w);
      FoldNames(w) == FoldNames(want) && (Patchable(have, w, true) ==> leads) &&
      (DecodedApart(Meaning(have), Meaning(w)) ==> (leads <==> Patchable(have, w, true)))
  {
    hide ApplyAll;
    hide Create;
    hide Patchable;
    hide Apart;
    hide DecodedApart;
    hide FoldUnique;
    hide Respelled;
    hide Meaning;
    hide Addressable;
    var w := Respelled(want, have);
    RespelledFolds(want, have);
    RespelledApart(have, want);
    RespelledAddressable(want, have);
    CreateRespelled("", have, want);
    if Patchable(have, w, true) { PatchesSucceed(have, w, duplicate, false); }
    if DecodedApart(Meaning(have), Meaning(w)) { JsonPatchRoundTrip(have, w, duplicate, false); }
  }
}
