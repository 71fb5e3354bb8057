/**
  The two comparisons of JSON trees: the quadratic one of cJSON_Compare, which
  looks every member up by name, and compare_json, which sorts both objects and
  walks them side by side. Both decide equality of meanings.
 */
module Compare {
  import opened Sequences
  import opened CStrings
  import opened JsonValues
  import opened Members

  // ----- cJSON_Compare -----

  predicate LookupEqual(a: Json, b: Json, caseSensitive: bool)
    decreases Depth(a) + Depth(b), 1
  {
    match (a, b)
    case (Array(x), Array(y)) =>
      |x| == |y| && forall i :: 0 <= i < |x| ==> LookupEqual(x[i], y[i], caseSensitive)
    case (Object(_), Object(_)) =>
      FindsAll(a, b, caseSensitive) && FindsAll(b, a, caseSensitive)
    case _ => a == b
  }

  /** One of the two loops over an object: every member of a is found in b, and equal there. */
  predicate FindsAll(a: Json, b: Json, caseSensitive: bool)
    requires a.Object? && b.Object?
    decreases Depth(a) + Depth(b), 0
  {
    forall i :: 0 <= i < |a.members| ==>
      var k := FindMember(b.members, a.members[i].key, caseSensitive);
      k < |b.members| && LookupEqual(a.members[i].val, b.members[k].val, caseSensitive)
  }

  /** cJSON_Compare: loops over the children, for objects a second one for what only b has. */
  method CompareByLookup(a: Json, b: Json, caseSensitive: bool) returns (r: bool)
    ensures r == LookupEqual(a, b, caseSensitive)
    decreases Depth(a) + Depth(b), 1
  {
    hide FindsAll;
    hide Depth;
    if a.Array? && b.Array? {
      r := CompareItemsByLookup(a, b, caseSensitive);
    } else if a.Object? && b.Object? {
      r := CompareMembersByLookup(a, b, caseSensitive);
      if r {
        r := CompareMembersByLookup(b, a, caseSensitive);
      }
    } else {
      r := a == b;
    }
  }

  method CompareItemsByLookup(a: Json, b: Json, caseSensitive: bool) returns (r: bool)
    requires a.Array? && b.Array?
    ensures r == LookupEqual(a, b, caseSensitive)
    decreases Depth(a) + Depth(b), 0
  {
    var x, y := a.items, b.items;
    var i := 0;
    while i < |x| && i < |y|
      invariant i <= |x| && i <= |y|
      invariant forall n :: 0 <= n < i ==> LookupEqual(x[n], y[n], caseSensitive)
    {
      var equal := CompareByLookup(x[i], y[i], caseSensitive);
      if !equal { return false; }
      i := i + 1;
    }
    return i == |x| && i == |y|;
  }

  method CompareMembersByLookup(a: Json, b: Json, caseSensitive: bool) returns (r: bool)
    requires a.Object? && b.Object?
    ensures r == FindsAll(a, b, caseSensitive)
    decreases Depth(a) + Depth(b), 0
  {
    for i := 0 to |a.members|
      invariant forall n :: 0 <= n < i ==>
        var k := FindMember(b.members, a.members[n].key, caseSensitive);
        k < |b.members| && LookupEqual(a.members[n].val, b.members[k].val, caseSensitive)
    {
      var k := GetObjectItem(b.members, a.members[i].key, caseSensitive);
      if k == |b.members| { return false; }
      var equal := CompareByLookup(a.members[i].val, b.members[k].val, caseSensitive);
      if !equal { return false; }
    }
    return true;
  }

  // ----- compare_json -----

  predicate SortedEqual(a: Json, b: Json, caseSensitive: bool)
    decreases Depth(a), 1, 0
  {
    match (a, b)
    case (Array(x), Array(y)) =>
      |x| == |y| && forall i :: 0 <= i < |x| ==> SortedEqual(x[i], y[i], caseSensitive)
    case (Object(x), Object(y)) =>
      SortedDepth(x, caseSensitive);
      WalkEqual(a, SortMembers(x, caseSensitive), SortMembers(y, caseSensitive), caseSensitive)
    case _ => a == b
  }

  /** The walk over two sorted child lists of `parent` and of what it is compared with. */
  predicate WalkEqual(ghost parent: Json, x: seq<Member>, y: seq<Member>, caseSensitive: bool)
    requires forall i :: 0 <= i < |x| ==> Depth(x[i].val) < Depth(parent)
    decreases Depth(parent), 0, |x|
  {
    if x == [] || y == [] then x == [] && y == [] else
      CompareStrings(x[0].key, y[0].key, caseSensitive) == 0 &&
      SortedEqual(x[0].val, y[0].val, caseSensitive) &&
      WalkEqual(parent, x[1..], y[1..], caseSensitive)
  }

  lemma SortedDepth(ms: seq<Member>, caseSensitive: bool)
    ensures forall m :: m in SortMembers(ms, caseSensitive) ==> m in ms && Depth(m.val) < Depth(Object(ms))
  {
    forall m | m in SortMembers(ms, caseSensitive)
      ensures m in ms && Depth(m.val) < Depth(Object(ms))
    {
      assert m in multiset(SortMembers(ms, caseSensitive));
      assert m in multiset(ms);
    }
  }

  // ----- what compare_json leaves behind -----

  lemma {:induction false} ItemsUpTo(items: seq<Json>, d: nat)
    requires forall i :: 0 <= i < |items| ==> Depth(items[i]) <= d
    ensures ItemsDepth(items) <= d
  {
    if items != [] { ItemsUpTo(items[1..], d); }
  }

  lemma {:induction false} MembersUpTo(ms: seq<Member>, d: nat)
    requires forall i :: 0 <= i < |ms| ==> Depth(ms[i].val) <= d
    ensures MembersDepth(ms) <= d
  {
    if ms != [] { MembersUpTo(ms[1..], d); }
  }

  /** compare_json sorts in place: the two trees as it leaves them, sorted up to the first mismatch. */
  function Left(a: Json, b: Json, caseSensitive: bool): (r: (Json, Json))
    ensures Depth(r.0) <= Depth(a)
    decreases Depth(a), 1, 0
  {
    match (a, b)
    case (Array(x), Array(y)) =>
      var r := LeftItems(a, x, y, caseSensitive);
      ItemsUpTo(r.0, Depth(a) - 1);
      (Array(r.0), Array(r.1))
    case (Object(x), Object(y)) =>
      SortedDepth(x, caseSensitive);
      var r := LeftMembers(a, SortMembers(x, caseSensitive), SortMembers(y, caseSensitive), caseSensitive);
      MembersUpTo(r.0, Depth(a) - 1);
      (Object(r.0), Object(r.1))
    case _ => (a, b)
  }

  function LeftItems(ghost parent: Json, x: seq<Json>, y: seq<Json>, caseSensitive: bool): (r: (seq<Json>, seq<Json>))
    requires forall i :: 0 <= i < |x| ==> Depth(x[i]) < Depth(parent)
    ensures forall i :: 0 <= i < |r.0| ==> Depth(r.0[i]) < Depth(parent)
    decreases Depth(parent), 0, |x|
  {
    if x == [] || y == [] then (x, y) else
      var left := Left(x[0], y[0], caseSensitive);
      if !SortedEqual(x[0], y[0], caseSensitive) then ([left.0] + x[1..], [left.1] + y[1..]) else
        var rest := LeftItems(parent, x[1..], y[1..], caseSensitive);
        ([left.0] + rest.0, [left.1] + rest.1)
  }

  function LeftMembers(ghost parent: Json, x: seq<Member>, y: seq<Member>, caseSensitive: bool): (r: (seq<Member>, seq<Member>))
    requires forall i :: 0 <= i < |x| ==> Depth(x[i].val) < Depth(parent)
    ensures forall i :: 0 <= i < |r.0| ==> Depth(r.0[i].val) < Depth(parent)
    decreases Depth(parent), 0, |x|
  {
    if x == [] || y == [] || CompareStrings(x[0].key, y[0].key, caseSensitive) != 0 then (x, y) else
      var left := Left(x[0].val, y[0].val, caseSensitive);
      var x0, y0 := Member(x[0].key, left.0), Member(y[0].key, left.1);
      if !SortedEqual(x[0].val, y[0].val, caseSensitive) then ([x0] + x[1..], [y0] + y[1..]) else
        var rest := LeftMembers(parent, x[1..], y[1..], caseSensitive);
        ([x0] + rest.0, [y0] + rest.1)
  }

  method CompareJson(a: Json, b: Json, caseSensitive: bool) returns (r: bool, a': Json, b': Json)
    ensures r == SortedEqual(a, b, caseSensitive)
    ensures (a', b') == Left(a, b, caseSensitive)
    decreases Depth(a), 2
  {
    if a.Array? && b.Array? {
      var x, y;
      r, x, y := CompareItems(a, b, caseSensitive);
      a', b' := Array(x), Array(y);
    } else if a.Object? && b.Object? {
      var x, y;
      r, x, y := CompareMembers(a, b, caseSensitive);
      a', b' := Object(x), Object(y);
    } else {
      r, a', b' := a == b, a, b;
    }
  }

  lemma ItemsStep(parent: Json, x: seq<Json>, y: seq<Json>, caseSensitive: bool)
    requires forall i :: 0 <= i < |x| ==> Depth(x[i]) < Depth(parent)
    ensures x == [] || y == [] ==> LeftItems(parent, x, y, caseSensitive) == (x, y)
    ensures x != [] && y != [] ==> var left := Left(x[0], y[0], caseSensitive);
      LeftItems(parent, x, y, caseSensitive) ==
        if !SortedEqual(x[0], y[0], caseSensitive) then ([left.0] + x[1..], [left.1] + y[1..]) else
          var rest := LeftItems(parent, x[1..], y[1..], caseSensitive);
          ([left.0] + rest.0, [left.1] + rest.1)
  {
  }

  lemma ItemsLeft(a: Json, b: Json, caseSensitive: bool)
    requires a.Array? && b.Array?
    ensures forall i :: 0 <= i < |a.items| ==> Depth(a.items[i]) < Depth(a)
    ensures var r := LeftItems(a, a.items, b.items, caseSensitive); Left(a, b, caseSensitive) == (Array(r.0), Array(r.1))
  {
  }

  method CompareItems(a: Json, b: Json, caseSensitive: bool) returns (r: bool, x': seq<Json>, y': seq<Json>)
    requires a.Array? && b.Array?
    ensures r == SortedEqual(a, b, caseSensitive)
    ensures (Array(x'), Array(y')) == Left(a, b, caseSensitive)
    decreases Depth(a), 0
  {
    hide Left;
    hide LeftItems;
    hide Depth;
    var x, y := a.items, b.items;
    ItemsLeft(a, b, caseSensitive);
    ghost var goal := LeftItems(a, x, y, caseSensitive);
    x', y' := [], [];
    r := true;
    assert x' + goal.0 == goal.0 && y' + goal.1 == goal.1;
    while x != [] && y != []
      invariant forall i :: 0 <= i < |x| ==> Depth(x[i]) < Depth(a)
      invariant var rest := LeftItems(a, x, y, caseSensitive); x' + rest.0 == goal.0 && y' + rest.1 == goal.1
      invariant ItemsEqual(a.items, b.items, caseSensitive) <==> ItemsEqual(x, y, caseSensitive)
      decreases |x|
    {
      ItemsStep(a, x, y, caseSensitive);
      ItemsEqualStep(x, y, caseSensitive);
      var identical, x0, y0 := CompareJson(x[0], y[0], caseSensitive);
      ghost var rest := LeftItems(a, x[1..], y[1..], caseSensitive);
      Append(x', [x0], if identical then rest.0 else x[1..]);
      Append(y', [y0], if identical then rest.1 else y[1..]);
      x', y', x, y := x' + [x0], y' + [y0], x[1..], y[1..];
      if !identical {
        return false, x' + x, y' + y;
      }
    }
    ItemsStep(a, x, y, caseSensitive);
    r, x', y' := x == [] && y == [], x' + x, y' + y;
  }

  predicate ItemsEqual(x: seq<Json>, y: seq<Json>, caseSensitive: bool) {
    |x| == |y| && forall i :: 0 <= i < |x| ==> SortedEqual(x[i], y[i], caseSensitive)
  }

  lemma ItemsEqualStep(x: seq<Json>, y: seq<Json>, caseSensitive: bool)
    requires x != [] && y != []
    ensures ItemsEqual(x, y, caseSensitive) <==> SortedEqual(x[0], y[0], caseSensitive) && ItemsEqual(x[1..], y[1..], caseSensitive)
  {
    hide SortedEqual;
    if SortedEqual(x[0], y[0], caseSensitive) && ItemsEqual(x[1..], y[1..], caseSensitive) {
      forall i | 0 <= i < |x|
        ensures SortedEqual(x[i], y[i], caseSensitive)
      {
        if i > 0 { assert x[i] == x[1..][i - 1] && y[i] == y[1..][i - 1]; }
      }
    }
    if ItemsEqual(x, y, caseSensitive) {
      assert forall i :: 0 <= i < |x| - 1 ==> x[1..][i] == x[i + 1] && y[1..][i] == y[i + 1];
    }
  }

  /** compare_json on objects is the walk over the two sorted child lists. */
  lemma SortThenWalk(a: Json, b: Json, caseSensitive: bool)
    requires a.Object? && b.Object?
    ensures forall i :: 0 <= i < |SortMembers(a.members, caseSensitive)| ==>
      Depth(SortMembers(a.members, caseSensitive)[i].val) < Depth(a)
    ensures SortedEqual(a, b, caseSensitive) ==
      WalkEqual(a, SortMembers(a.members, caseSensitive), SortMembers(b.members, caseSensitive), caseSensitive)
  {
    SortedDepth(a.members, caseSensitive);
  }

  lemma WalkStep(parent: Json, x: seq<Member>, y: seq<Member>, caseSensitive: bool)
    requires forall i :: 0 <= i < |x| ==> Depth(x[i].val) < Depth(parent)
    ensures x != [] && y != [] ==> (WalkEqual(parent, x, y, caseSensitive) <==>
      CompareStrings(x[0].key, y[0].key, caseSensitive) == 0 && SortedEqual(x[0].val, y[0].val, caseSensitive) &&
      WalkEqual(parent, x[1..], y[1..], caseSensitive))
    ensures x == [] || y == [] ==> (WalkEqual(parent, x, y, caseSensitive) <==> x == [] && y == [])
  {
  }

  lemma MembersStep(parent: Json, x: seq<Member>, y: seq<Member>, caseSensitive: bool)
    requires forall i :: 0 <= i < |x| ==> Depth(x[i].val) < Depth(parent)
    ensures x == [] || y == [] || CompareStrings(x[0].key, y[0].key, caseSensitive) != 0 ==>
      LeftMembers(parent, x, y, caseSensitive) == (x, y)
    ensures x != [] && y != [] && CompareStrings(x[0].key, y[0].key, caseSensitive) == 0 ==>
      var left := Left(x[0].val, y[0].val, caseSensitive);
      var x0, y0 := Member(x[0].key, left.0), Member(y[0].key, left.1);
      LeftMembers(parent, x, y, caseSensitive) ==
        if !SortedEqual(x[0].val, y[0].val, caseSensitive) then ([x0] + x[1..], [y0] + y[1..]) else
          var rest := LeftMembers(parent, x[1..], y[1..], caseSensitive);
          ([x0] + rest.0, [y0] + rest.1)
  {
  }

  /** One turn of the walk over two sorted child lists, with x' and y' behind it. */
  lemma MembersTurn(parent: Json, x: seq<Member>, y: seq<Member>, x': seq<Member>, y': seq<Member>, caseSensitive: bool)
    requires forall i :: 0 <= i < |x| ==> Depth(x[i].val) < Depth(parent)
    requires x != [] && y != []
    ensures var goal, left := LeftMembers(parent, x, y, caseSensitive), Left(x[0].val, y[0].val, caseSensitive);
      var same, equal := CompareStrings(x[0].key, y[0].key, caseSensitive) == 0, SortedEqual(x[0].val, y[0].val, caseSensitive);
      var rest := if equal then LeftMembers(parent, x[1..], y[1..], caseSensitive) else (x[1..], y[1..]);
      (!same ==> goal == (x, y)) &&
      (same ==> x' + goal.0 == (x' + [Member(x[0].key, left.0)]) + rest.0) &&
      (same ==> y' + goal.1 == (y' + [Member(y[0].key, left.1)]) + rest.1) &&
      (WalkEqual(parent, x, y, caseSensitive) <==> same && equal && WalkEqual(parent, x[1..], y[1..], caseSensitive))
  {
    hide Left;
    hide SortedEqual;
    hide CompareStrings;
    hide LeftMembers;
    hide WalkEqual;
    hide Depth;
    WalkStep(parent, x, y, caseSensitive);
    MembersStep(parent, x, y, caseSensitive);
    var left, equal := Left(x[0].val, y[0].val, caseSensitive), SortedEqual(x[0].val, y[0].val, caseSensitive);
    var rest := if equal then LeftMembers(parent, x[1..], y[1..], caseSensitive) else (x[1..], y[1..]);
    Append(x', [Member(x[0].key, left.0)], rest.0);
    Append(y', [Member(y[0].key, left.1)], rest.1);
  }

  lemma MembersLeft(a: Json, b: Json, caseSensitive: bool)
    requires a.Object? && b.Object?
    ensures forall i :: 0 <= i < |SortMembers(a.members, caseSensitive)| ==>
      Depth(SortMembers(a.members, caseSensitive)[i].val) < Depth(a)
    ensures var r := LeftMembers(a, SortMembers(a.members, caseSensitive), SortMembers(b.members, caseSensitive), caseSensitive);
      Left(a, b, caseSensitive) == (Object(r.0), Object(r.1))
  {
    SortedDepth(a.members, caseSensitive);
  }

  method CompareMembers(a: Json, b: Json, caseSensitive: bool) returns (r: bool, x': seq<Member>, y': seq<Member>)
    requires a.Object? && b.Object?
    ensures r == SortedEqual(a, b, caseSensitive)
    ensures (Object(x'), Object(y')) == Left(a, b, caseSensitive)
    decreases Depth(a), 1
  {
    hide SortedEqual;
    hide WalkEqual;
    hide Left;
    hide LeftMembers;
    hide Depth;
    SortThenWalk(a, b, caseSensitive);
    MembersLeft(a, b, caseSensitive);
    r, x', y' := WalkMembers(a, SortMembers(a.members, caseSensitive), SortMembers(b.members, caseSensitive), caseSensitive);
  }

  method WalkMembers(ghost parent: Json, a: seq<Member>, b: seq<Member>, caseSensitive: bool)
    returns (r: bool, x': seq<Member>, y': seq<Member>)
    requires forall i :: 0 <= i < |a| ==> Depth(a[i].val) < Depth(parent)
    ensures r == WalkEqual(parent, a, b, caseSensitive)
    ensures (x', y') == LeftMembers(parent, a, b, caseSensitive)
    decreases Depth(parent), 0
  {
    hide SortedEqual;
    hide WalkEqual;
    hide Left;
    hide LeftMembers;
    hide Depth;
    hide CompareStrings;
    ghost var goal := LeftMembers(parent, a, b, caseSensitive);
    var x, y := a, b;
    x', y' := [], [];
    assert x' + goal.0 == goal.0 && y' + goal.1 == goal.1;
    while x != [] && y != []
      invariant forall i :: 0 <= i < |x| ==> Depth(x[i].val) < Depth(parent)
      invariant var rest := LeftMembers(parent, x, y, caseSensitive); x' + rest.0 == goal.0 && y' + rest.1 == goal.1
      invariant WalkEqual(parent, a, b, caseSensitive) <==> WalkEqual(parent, x, y, caseSensitive)
      decreases |x|
    {
      MembersTurn(parent, x, y, x', y', caseSensitive);
      if CompareStrings(x[0].key, y[0].key, caseSensitive) != 0 {
        return false, x' + x, y' + y;
      }
      var identical, u, v := CompareJson(x[0].val, y[0].val, caseSensitive);
      x', y' := x' + [Member(x[0].key, u)], y' + [Member(y[0].key, v)];
      x, y := x[1..], y[1..];
      if !identical {
        return false, x' + x, y' + y;
      }
    }
    WalkStep(parent, x, y, caseSensitive);
    MembersStep(parent, x, y, caseSensitive);
    r, x', y' := x == [] && y == [], x' + x, y' + y;
  }

  /** What is left behind means the same: members have moved, and nothing else. */
  lemma {:induction false} LeftMeans(a: Json, b: Json, caseSensitive: bool)
    requires Unique(a) && Unique(b)
    ensures var r := Left(a, b, caseSensitive);
      Unique(r.0) && Unique(r.1) && Meaning(r.0) == Meaning(a) && Meaning(r.1) == Meaning(b)
    decreases Depth(a), 1, 0
  {
    hide Left;
    hide Unique;
    hide Meaning;
    if a.Array? && b.Array? {
      LeftArrayMeans(a, b, caseSensitive);
    } else if a.Object? && b.Object? {
      LeftObjectMeans(a, b, caseSensitive);
    } else {
      LeftAsIs(a, b, caseSensitive);
    }
  }

  lemma LeftAsIs(a: Json, b: Json, caseSensitive: bool)
    requires !(a.Array? && b.Array?) && !(a.Object? && b.Object?)
    ensures Left(a, b, caseSensitive) == (a, b)
  {
  }

  lemma {:induction false} LeftArrayMeans(a: Json, b: Json, caseSensitive: bool)
    requires Unique(a) && Unique(b) && a.Array? && b.Array?
    ensures var r := Left(a, b, caseSensitive);
      Unique(r.0) && Unique(r.1) && Meaning(r.0) == Meaning(a) && Meaning(r.1) == Meaning(b)
    decreases Depth(a), 0
  {
    hide Left;
    hide LeftItems;
    hide Unique;
    hide Meaning;
    hide ItemsAlike;
    ItemsLeft(a, b, caseSensitive);
    assert a == Array(a.items) && b == Array(b.items);
    LeftItemsMean(a, a.items, b.items, caseSensitive);
    SameItemsMean(a.items, LeftItems(a, a.items, b.items, caseSensitive).0);
    SameItemsMean(b.items, LeftItems(a, a.items, b.items, caseSensitive).1);
  }

  lemma {:induction false} LeftObjectMeans(a: Json, b: Json, caseSensitive: bool)
    requires Unique(a) && Unique(b) && a.Object? && b.Object?
    ensures var r := Left(a, b, caseSensitive);
      Unique(r.0) && Unique(r.1) && Meaning(r.0) == Meaning(a) && Meaning(r.1) == Meaning(b)
    decreases Depth(a), 0
  {
    hide Left;
    hide LeftMembers;
    hide Meaning;
    hide MembersAlike;
    hide SortMembers;
    hide MembersMeaning;
    var x, y := SortMembers(a.members, caseSensitive), SortMembers(b.members, caseSensitive);
    assert a == Object(a.members) && b == Object(b.members);
    SortUnique(a.members, caseSensitive);
    SortUnique(b.members, caseSensitive);
    MembersLeft(a, b, caseSensitive);
    LeftMembersMean(a, x, y, caseSensitive);
    SameMembersMean(x, LeftMembers(a, x, y, caseSensitive).0);
    SameMembersMean(y, LeftMembers(a, x, y, caseSensitive).1);
    ObjectMeans(a.members, x);
    ObjectMeans(b.members, y);
  }

  lemma ObjectMeans(a: seq<Member>, b: seq<Member>)
    requires MembersMeaning(a) == MembersMeaning(b)
    ensures Meaning(Object(a)) == Meaning(Object(b))
  {
  }

  /** The same items up to member order below. */
  ghost predicate ItemsAlike(x: seq<Json>, x': seq<Json>) {
    |x'| == |x| && forall i :: 0 <= i < |x| ==> Unique(x'[i]) && Meaning(x'[i]) == Meaning(x[i])
  }

  ghost predicate MembersAlike(x: seq<Member>, x': seq<Member>) {
    |x'| == |x| && forall i :: 0 <= i < |x| ==>
      x'[i].key == x[i].key && Unique(x'[i].val) && Meaning(x'[i].val) == Meaning(x[i].val)
  }

  lemma AlikeItems(x: seq<Json>, x': seq<Json>)
    requires Unique(Array(x))
    ensures ItemsAlike(x, x)
    ensures x != [] && x' != [] && Unique(x'[0]) && Meaning(x'[0]) == Meaning(x[0]) ==>
      (x'[1..] == x[1..] || ItemsAlike(x[1..], x'[1..])) ==> ItemsAlike(x, x')
  {
    hide Meaning;
    if x != [] && x' != [] {
      assert forall i :: 0 < i < |x| ==> x[i] == x[1..][i - 1];
      assert forall i :: 0 < i < |x'| ==> x'[i] == x'[1..][i - 1];
    }
  }

  lemma AlikeMembers(x: seq<Member>, x': seq<Member>)
    requires Unique(Object(x))
    ensures MembersAlike(x, x)
    ensures x != [] && x' != [] && x'[0].key == x[0].key && Unique(x'[0].val) && Meaning(x'[0].val) == Meaning(x[0].val) ==>
      (x'[1..] == x[1..] || MembersAlike(x[1..], x'[1..])) ==> MembersAlike(x, x')
  {
    hide Meaning;
    if x != [] && x' != [] {
      assert forall i :: 0 < i < |x| ==> x[i] == x[1..][i - 1];
      assert forall i :: 0 < i < |x'| ==> x'[i] == x'[1..][i - 1];
    }
  }

  lemma SameItemsMean(x: seq<Json>, x': seq<Json>)
    requires ItemsAlike(x, x')
    ensures Unique(Array(x')) && Meaning(Array(x')) == Meaning(Array(x))
  {
    assert ItemsMeaning(x') == ItemsMeaning(x);
  }

  lemma {:induction false} SameMembersMean(x: seq<Member>, x': seq<Member>)
    requires UniqueKeys(x) && MembersAlike(x, x')
    ensures Unique(Object(x')) && Meaning(Object(x')) == Meaning(Object(x))
  {
    if x != [] {
      assert MembersAlike(x[1..], x'[1..]);
      SameMembersMean(x[1..], x'[1..]);
    }
  }

  lemma {:induction false} LeftItemsMean(parent: Json, x: seq<Json>, y: seq<Json>, caseSensitive: bool)
    requires forall i :: 0 <= i < |x| ==> Depth(x[i]) < Depth(parent)
    requires Unique(Array(x)) && Unique(Array(y))
    ensures var r := LeftItems(parent, x, y, caseSensitive); ItemsAlike(x, r.0) && ItemsAlike(y, r.1)
    decreases Depth(parent), 0, |x|
  {
    hide Left;
    hide LeftItems;
    hide SortedEqual;
    hide Meaning;
    hide Depth;
    hide ItemsAlike;
    ItemsStep(parent, x, y, caseSensitive);
    var r := LeftItems(parent, x, y, caseSensitive);
    AlikeItems(x, r.0);
    AlikeItems(y, r.1);
    if x != [] && y != [] {
      LeftMeans(x[0], y[0], caseSensitive);
      LeftItemsMean(parent, x[1..], y[1..], caseSensitive);
    }
  }

  lemma {:induction false} LeftMembersMean(parent: Json, x: seq<Member>, y: seq<Member>, caseSensitive: bool)
    requires forall i :: 0 <= i < |x| ==> Depth(x[i].val) < Depth(parent)
    requires Unique(Object(x)) && Unique(Object(y))
    ensures var r := LeftMembers(parent, x, y, caseSensitive); MembersAlike(x, r.0) && MembersAlike(y, r.1)
    decreases Depth(parent), 0, |x|
  {
    hide Left;
    hide LeftMembers;
    hide SortedEqual;
    hide Meaning;
    hide CompareStrings;
    hide Depth;
    hide MembersAlike;
    MembersStep(parent, x, y, caseSensitive);
    var r := LeftMembers(parent, x, y, caseSensitive);
    AlikeMembers(x, r.0);
    AlikeMembers(y, r.1);
    if x != [] && y != [] {
      LeftMeans(x[0].val, y[0].val, caseSensitive);
      LeftMembersMean(parent, x[1..], y[1..], caseSensitive);
    }
  }

  // ----- both decide equality of meanings -----

  /** With such keys, looking up while ignoring case finds what an exact lookup finds. */
  lemma FindFolded(ms: seq<Member>, name: string, ks: iset<string>, caseSensitive: bool)
    requires caseSensitive || FoldInjective(ks)
    requires name in ks && forall i :: 0 <= i < |ms| ==> ms[i].key in ks
    ensures FindMember(ms, name, caseSensitive) == FindMember(ms, name, true)
  {
    if !caseSensitive {
      var i, j := FindMember(ms, name, false), FindMember(ms, name, true);
      assert i < |ms| ==> ms[i].key == name;
      assert j < |ms| ==> Fold(ms[j].key) == Fold(name);
    }
  }

  /** The names of two objects, when no two of them differ in case only, or case is heeded. */
  lemma PairNames(x: seq<Member>, y: seq<Member>, caseSensitive: bool) returns (ks: iset<string>)
    requires UniqueKeys(x) && UniqueKeys(y)
    requires caseSensitive || FoldInjective(KeysOf(MembersMeaning(x), MembersMeaning(y)))
    ensures Named(x, ks) && Named(y, ks) && (caseSensitive || FoldInjective(ks))
  {
    ks := KeysOf(MembersMeaning(x), MembersMeaning(y));
    NamedBy(x, ks);
    NamedBy(y, ks);
  }

  lemma {:induction false} ApartSymmetric(a: Value, b: Value)
    ensures Apart(a, b) ==> Apart(b, a)
    decreases a
  {
    if a.VArray? && b.VArray? {
      forall i | 0 <= i < |a.items| && i < |b.items|
        ensures Apart(a.items[i], b.items[i]) ==> Apart(b.items[i], a.items[i])
      {
        ApartSymmetric(a.items[i], b.items[i]);
      }
    } else if a.VObject? && b.VObject? {
      assert KeysOf(a.m, b.m) == KeysOf(b.m, a.m);
      forall k | k in a.m && k in b.m
        ensures Apart(a.m[k], b.m[k]) ==> Apart(b.m[k], a.m[k])
      {
        ApartSymmetric(a.m[k], b.m[k]);
      }
    }
  }

  lemma {:induction false} LookupDecidesMeaning(a: Json, b: Json, caseSensitive: bool)
    requires Unique(a) && Unique(b) && (caseSensitive || Apart(Meaning(a), Meaning(b)))
    ensures LookupEqual(a, b, caseSensitive) <==> Meaning(a) == Meaning(b)
    decreases Depth(a) + Depth(b), 1
  {
    hide FindsAll;
    hide Covers;
    hide MembersMeaning;
    if a.Array? && b.Array? {
      var x, y := a.items, b.items;
      forall i | 0 <= i < |x| && i < |y|
        ensures LookupEqual(x[i], y[i], caseSensitive) <==> ItemsMeaning(x)[i] == ItemsMeaning(y)[i]
      {
        LookupDecidesMeaning(x[i], y[i], caseSensitive);
      }
    } else if a.Object? && b.Object? {
      ApartSymmetric(Meaning(a), Meaning(b));
      FindsAllMeaning(a, b, caseSensitive);
      FindsAllMeaning(b, a, caseSensitive);
      CoversBothWays(MembersMeaning(a.members), MembersMeaning(b.members));
    }
  }

  lemma CoversBothWays<K(!new), V>(p: map<K, V>, q: map<K, V>)
    ensures Covers(p, q) && Covers(q, p) <==> p == q
  {
  }

  ghost predicate Covers<K(!new), V>(p: map<K, V>, q: map<K, V>) {
    forall k :: k in p ==> k in q && q[k] == p[k]
  }

  lemma {:induction false} FindsAllMeaning(a: Json, b: Json, caseSensitive: bool)
    requires Unique(a) && Unique(b) && (caseSensitive || Apart(Meaning(a), Meaning(b))) && a.Object? && b.Object?
    ensures FindsAll(a, b, caseSensitive) <==> Covers(MembersMeaning(a.members), MembersMeaning(b.members))
    decreases Depth(a) + Depth(b), 0
  {
    hide MembersMeaning;
    var x, y := a.members, b.members;
    var p, q := MembersMeaning(x), MembersMeaning(y);
    var ks := PairNames(x, y, caseSensitive);
    hide FoldInjective;
    forall i | 0 <= i < |x|
      ensures x[i].key in p
      ensures var k := FindMember(y, x[i].key, caseSensitive);
        (k < |y| && LookupEqual(x[i].val, y[k].val, caseSensitive)) <==> (x[i].key in q && q[x[i].key] == p[x[i].key])
    {
      FindFolded(y, x[i].key, ks, caseSensitive);
      FindMeaning(y, x[i].key);
      MemberMeaning(x, i);
      var k := FindMember(y, x[i].key, true);
      if k < |y| {
        LookupDecidesMeaning(x[i].val, y[k].val, caseSensitive);
      }
    }
    forall key | key in p
      ensures exists i :: 0 <= i < |x| && x[i].key == key
    {
      FindMeaning(x, key);
      assert x[FindMember(x, key, true)].key == key;
    }
  }

  lemma HeadIsNew(ms: seq<Member>, k: string, caseSensitive: bool)
    requires StrictlySorted(ms, caseSensitive)
    requires ms != [] ==> Less(View(k, caseSensitive), View(ms[0].key, caseSensitive))
    ensures k !in MembersMeaning(ms)
  {
    hide Fold;
    FindMeaning(ms, k);
    var i := FindMember(ms, k, true);
    if i < |ms| {
      if i > 0 {
        assert Before(ms[0], ms[i], caseSensitive);
        LessTransitive(View(k, caseSensitive), View(ms[0].key, caseSensitive), View(ms[i].key, caseSensitive));
      }
      LessIrreflexive(View(k, caseSensitive));
    }
  }

  /** The first of two sorted child lists that has the smaller key is alone with it. */
  lemma SortedTail(ms: seq<Member>, caseSensitive: bool)
    requires StrictlySorted(ms, caseSensitive) && ms != []
    ensures StrictlySorted(ms[1..], caseSensitive)
    ensures ms[0].key !in MembersMeaning(ms[1..])
  {
    assert forall i :: 0 < i < |ms| ==> Before(ms[0], ms[i], caseSensitive);
    HeadIsNew(ms[1..], ms[0].key, caseSensitive);
  }

  lemma {:induction false} SortedDecidesMeaning(a: Json, b: Json, caseSensitive: bool)
    requires Unique(a) && Unique(b) && (caseSensitive || Apart(Meaning(a), Meaning(b)))
    ensures SortedEqual(a, b, caseSensitive) <==> Meaning(a) == Meaning(b)
    decreases Depth(a), 1, 0
  {
    match (a, b) {
      case (Array(x), Array(y)) =>
        forall i | 0 <= i < |x| && i < |y|
          ensures SortedEqual(x[i], y[i], caseSensitive) <==> Meaning(x[i]) == Meaning(y[i])
        {
          assert ItemsMeaning(x)[i] == Meaning(x[i]) && ItemsMeaning(y)[i] == Meaning(y[i]);
          SortedDecidesMeaning(x[i], y[i], caseSensitive);
        }
        assert |x| == |y| ==> (ItemsMeaning(x) == ItemsMeaning(y) <==>
          forall i :: 0 <= i < |x| ==> ItemsMeaning(x)[i] == ItemsMeaning(y)[i]);
      case (Object(x), Object(y)) =>
        hide Unique;
        SortThenWalk(a, b, caseSensitive);
        SortUnique(x, caseSensitive);
        SortUnique(y, caseSensitive);
        var ks := PairNames(x, y, caseSensitive);
        SortObject(x, ks, caseSensitive);
        SortObject(y, ks, caseSensitive);
        WalkDecidesMeaning(a, SortMembers(x, caseSensitive), SortMembers(y, caseSensitive), ks, caseSensitive);
      case _ =>
    }
  }

  lemma SameString(k: string, caseSensitive: bool)
    ensures CompareStrings(k, k, caseSensitive) == 0
  {
  }

  /** Two sorted lists that begin with different keys do not mean the same. */
  lemma HeadsDiffer(x: seq<Member>, y: seq<Member>, ks: iset<string>, caseSensitive: bool)
    requires x != [] && y != [] && x[0].key in ks && y[0].key in ks && x[0].key != y[0].key
    requires StrictlySorted(x, caseSensitive) && StrictlySorted(y, caseSensitive)
    requires caseSensitive || FoldInjective(ks)
    ensures CompareStrings(x[0].key, y[0].key, caseSensitive) != 0
    ensures MembersMeaning(x) != MembersMeaning(y)
  {
    hide Less;
    hide Fold;
    var a, b := x[0].key, y[0].key;
    LessTotal(View(a, caseSensitive), View(b, caseSensitive));
    if Before(x[0], y[0], caseSensitive) { HeadIsNew(y, a, caseSensitive); } else { HeadIsNew(x, b, caseSensitive); }
    assert a in MembersMeaning(x) && b in MembersMeaning(y);
  }

  /** The common names of two objects hold values whose names are apart in turn. */
  ghost predicate CommonApart(p: map<string, Value>, q: map<string, Value>) {
    forall k :: k in p && k in q ==> Apart(p[k], q[k])
  }

  lemma CommonPut(p: map<string, Value>, q: map<string, Value>, k: string, u: Value, v: Value)
    requires k !in p && k !in q
    ensures CommonApart(p[k := u], q[k := v]) ==> Apart(u, v) && CommonApart(p, q)
  {
    hide Apart;
    assert k in p[k := u] && k in q[k := v] && p[k := u][k] == u && q[k := v][k] == v;
    forall j | j in p && j in q
      ensures p[k := u][j] == p[j] && q[k := v][j] == q[j] && j in p[k := u] && j in q[k := v]
    {
    }
  }

  lemma {:induction false} WalkDecidesMeaning(parent: Json, x: seq<Member>, y: seq<Member>, ks: iset<string>, caseSensitive: bool)
    requires StrictlySorted(x, caseSensitive) && StrictlySorted(y, caseSensitive)
    requires Unique(Object(x)) && Unique(Object(y)) && Named(x, ks) && Named(y, ks)
    requires caseSensitive || (FoldInjective(ks) && CommonApart(MembersMeaning(x), MembersMeaning(y)))
    requires forall i :: 0 <= i < |x| ==> Depth(x[i].val) < Depth(parent)
    ensures WalkEqual(parent, x, y, caseSensitive) <==> MembersMeaning(x) == MembersMeaning(y)
    decreases Depth(parent), 0, |x|
  {
    hide WalkEqual;
    hide SortedEqual;
    hide Depth;
    hide CompareStrings;
    hide Apart;
    WalkStep(parent, x, y, caseSensitive);
    if x == [] || y == [] {
      assert x != [] ==> x[0].key in MembersMeaning(x);
      assert y != [] ==> y[0].key in MembersMeaning(y);
    } else if x[0].key == y[0].key {
      SameString(x[0].key, caseSensitive);
      SortedTail(x, caseSensitive);
      SortedTail(y, caseSensitive);
      UniqueTail(x);
      UniqueTail(y);
      hide StrictlySorted;
      hide Unique;
      CommonPut(MembersMeaning(x[1..]), MembersMeaning(y[1..]), x[0].key, Meaning(x[0].val), Meaning(y[0].val));
      SortedDecidesMeaning(x[0].val, y[0].val, caseSensitive);
      WalkDecidesMeaning(parent, x[1..], y[1..], ks, caseSensitive);
      PutEqual(MembersMeaning(x[1..]), MembersMeaning(y[1..]), x[0].key, Meaning(x[0].val), Meaning(y[0].val));
    } else {
      HeadsDiffer(x, y, ks, caseSensitive);
    }
  }

  lemma PutEqual<K, V>(p: map<K, V>, q: map<K, V>, k: K, u: V, v: V)
    requires k !in p && k !in q
    ensures p[k := u] == q[k := v] <==> p == q && u == v
  {
    if p[k := u] == q[k := v] {
      assert p == p[k := u] - {k} && q == q[k := v] - {k};
      assert p[k := u][k] == u;
    }
  }

  /** The fast comparison and the quadratic one agree. */
  lemma ComparisonsAgree(a: Json, b: Json, caseSensitive: bool)
    requires Unique(a) && Unique(b) && (caseSensitive || Apart(Meaning(a), Meaning(b)))
    ensures SortedEqual(a, b, caseSensitive) == LookupEqual(a, b, caseSensitive)
  {
    SortedDecidesMeaning(a, b, caseSensitive);
    LookupDecidesMeaning(a, b, caseSensitive);
  }
}
