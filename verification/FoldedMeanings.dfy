/**
  What a tree means with its names folded, as a function of what it means: so trees
  that mean the same do so with their names folded, too.
 */
module FoldedMeanings {
  import opened CStrings
  import opened JsonValues
  import opened Members
  import opened FoldedNames

  /** No two names of one object differ in case only. */
  ghost predicate NoClash(v: Value)
    decreases v
  {
    match v
    case VArray(vs) => forall i :: 0 <= i < |vs| ==> NoClash(vs[i])
    case VObject(m) => Injective(m) && forall k :: k in m ==> NoClash(m[k])
    case _ => true
  }

  ghost predicate Injective(m: map<string, Value>) {
    forall k, l :: k in m && l in m && Fold(k) == Fold(l) ==> k == l
  }

  /** The value with its names folded. */
  ghost function FoldValue(v: Value): Value
    decreases v
  {
    match v
    case VArray(vs) => VArray(seq(|vs|, i requires 0 <= i < |vs| => FoldValue(vs[i])))
    case VObject(m) => VObject(map f | f in FoldedKeys(m) :: FoldValue(m[Original(m, f)]))
    case _ => v
  }

  ghost function FoldedKeys(m: map<string, Value>): set<string> {
    set k | k in m :: Fold(k)
  }

  ghost function Original(m: map<string, Value>, f: string): (k: string)
    requires f in FoldedKeys(m)
    ensures k in m && Fold(k) == f
  {
    var k :| k in m && Fold(k) == f;
    k
  }

  lemma {:induction false} FoldedIsFolded(j: Json)
    requires Unique(j) && NoClash(Meaning(j))
    ensures FoldUnique(j) && FoldedMeaning(j) == FoldValue(Meaning(j))
    decreases j, 1
  {
    match j {
      case Array(items) =>
        forall i | 0 <= i < |items|
          ensures FoldUnique(items[i]) && FoldedMeaning(items[i]) == FoldValue(ItemsMeaning(items)[i])
        {
          FoldedIsFolded(items[i]);
        }
        ItemsFolded(items);
      case Object(ms) => MembersFolded(ms);
      case _ =>
    }
  }

  lemma FoldArray(vs: seq<Value>, r: seq<Value>)
    requires |r| == |vs| && forall i :: 0 <= i < |vs| ==> r[i] == FoldValue(vs[i])
    ensures FoldValue(VArray(vs)) == VArray(r)
  {
  }

  lemma ItemFolded(items: seq<Json>, i: nat)
    requires i < |items| && FoldUnique(items[i]) && FoldedMeaning(items[i]) == FoldValue(ItemsMeaning(items)[i])
    ensures ItemsMeaning(FoldItems(items))[i] == FoldValue(ItemsMeaning(items)[i]) && Unique(FoldItems(items)[i])
  {
    hide FoldValue;
    hide FoldNames;
    hide Unique;
    assert FoldItems(items)[i] == FoldNames(items[i]);
  }

  lemma ItemsFolded(items: seq<Json>)
    requires forall i :: 0 <= i < |items| ==> FoldUnique(items[i]) && FoldedMeaning(items[i]) == FoldValue(ItemsMeaning(items)[i])
    ensures FoldUnique(Array(items)) && FoldedMeaning(Array(items)) == FoldValue(Meaning(Array(items)))
  {
    var vs, fs := ItemsMeaning(items), FoldItems(items);
    var r := ItemsMeaning(fs);
    assert FoldNames(Array(items)) == Array(fs);
    hide FoldValue;
    hide FoldItems;
    hide ItemsMeaning;
    forall i | 0 <= i < |items|
      ensures r[i] == FoldValue(vs[i]) && Unique(fs[i])
    {
      ItemFolded(items, i);
    }
    FoldArray(vs, r);
  }

  lemma {:induction false} MembersFolded(ms: seq<Member>)
    requires Unique(Object(ms)) && NoClash(Meaning(Object(ms)))
    ensures FoldUnique(Object(ms)) && FoldedMeaning(Object(ms)) == FoldValue(Meaning(Object(ms)))
    decreases ms, 0
  {
    hide Fold;
    hide MembersMeaning;
    var m, fs := MembersMeaning(ms), FoldMembers(ms);
    forall i | 0 <= i < |ms|
      ensures ms[i].key in m && m[ms[i].key] == Meaning(ms[i].val)
      ensures FoldUnique(ms[i].val) && FoldedMeaning(ms[i].val) == FoldValue(m[ms[i].key])
    {
      MemberMeaning(ms, i);
      FoldedIsFolded(ms[i].val);
    }
    assert UniqueKeys(fs);
    SameFolded(ms, m);
  }

  lemma FoldObject(m: map<string, Value>, f: string)
    ensures FoldValue(VObject(m)).VObject?
    ensures var r := FoldValue(VObject(m)).m;
      (f in r <==> f in FoldedKeys(m)) && (f in r ==> r[f] == FoldValue(m[Original(m, f)]))
  {
  }

  /** Members that mean the map m, and whose values fold to its values. */
  ghost predicate FoldsTo(ms: seq<Member>, m: map<string, Value>) {
    UniqueKeys(ms) && UniqueKeys(FoldMembers(ms)) && m == MembersMeaning(ms) && Injective(m) &&
    forall i :: 0 <= i < |ms| ==> ms[i].key in m && FoldedMeaning(ms[i].val) == FoldValue(m[ms[i].key])
  }

  lemma SameMap(p: map<string, Value>, r: map<string, Value>)
    requires forall f :: (f in p <==> f in r) && (f in p ==> p[f] == r[f])
    ensures p == r
  {
  }

  lemma SameFolded(ms: seq<Member>, m: map<string, Value>)
    requires FoldsTo(ms, m)
    ensures MembersMeaning(FoldMembers(ms)) == FoldValue(VObject(m)).m
  {
    hide MembersMeaning;
    hide FoldsTo;
    hide FoldedKeys;
    hide Original;
    hide FoldMembers;
    hide FoldValue;
    FoldObject(m, "");
    var r, p := FoldValue(VObject(m)).m, MembersMeaning(FoldMembers(ms));
    forall f
      ensures (f in p <==> f in r) && (f in p ==> p[f] == r[f])
    {
      FoldObject(m, f);
      SameAtFold(ms, m, f);
    }
    SameMap(p, r);
  }

  lemma SameAtFold(ms: seq<Member>, m: map<string, Value>, f: string)
    requires FoldsTo(ms, m)
    ensures var p := MembersMeaning(FoldMembers(ms));
      (f in p <==> f in FoldedKeys(m)) && (f in p ==> p[f] == FoldValue(m[Original(m, f)]))
  {
    hide Fold;
    hide MembersMeaning;
    hide FoldUnique;
    hide FoldValue;
    var fs := FoldMembers(ms);
    FindMeaning(fs, f);
    var i := FindMember(fs, f, true);
    if i < |fs| {
      assert fs[i] == FoldMember(ms[i]) && ms[i].key in m;
      assert Original(m, f) == ms[i].key;
      assert FoldedMeaning(ms[i].val) == Meaning(fs[i].val);
    }
    if f in FoldedKeys(m) {
      var k := Original(m, f);
      FindMeaning(ms, k);
      var n := FindMember(ms, k, true);
      assert fs[n] == FoldMember(ms[n]);
    }
  }

  /** Trees without repetitions ignoring case have none otherwise, and mean something without. */
  lemma {:induction false} FoldUniqueMeans(j: Json)
    requires FoldUnique(j)
    ensures Unique(j) && NoClash(Meaning(j))
    decreases j
  {
    match j {
      case Array(items) =>
        var fs := FoldItems(items);
        assert FoldNames(j) == Array(fs);
        forall i | 0 <= i < |items|
          ensures Unique(items[i]) && NoClash(ItemsMeaning(items)[i])
        {
          assert fs[i] == FoldNames(items[i]);
          FoldUniqueMeans(items[i]);
        }
      case Object(ms) => MembersNoClash(ms);
      case _ =>
    }
  }

  lemma {:induction false} MembersNoClash(ms: seq<Member>)
    requires FoldUnique(Object(ms))
    ensures Unique(Object(ms)) && NoClash(Meaning(Object(ms)))
    decreases ms
  {
    hide Fold;
    hide MembersMeaning;
    var m, fs := MembersMeaning(ms), FoldMembers(ms);
    assert FoldNames(Object(ms)) == Object(fs);
    forall i | 0 <= i < |ms|
      ensures fs[i].key == Fold(ms[i].key) && Unique(ms[i].val) && NoClash(Meaning(ms[i].val))
    {
      assert fs[i] == FoldMember(ms[i]);
      FoldUniqueMeans(ms[i].val);
    }
    forall k | k in m
      ensures exists i :: 0 <= i < |ms| && ms[i].key == k && m[k] == Meaning(ms[i].val)
    {
      FindMeaning(ms, k);
      assert ms[FindMember(ms, k, true)].key == k;
    }
  }

  /** Trees that mean the same do so with their names folded. */
  lemma MeanSameFolded(a: Json, b: Json)
    requires Unique(a) && FoldUnique(b) && Meaning(a) == Meaning(b)
    ensures FoldUnique(a) && FoldedMeaning(a) == FoldedMeaning(b)
  {
    hide Unique;
    FoldUniqueMeans(b);
    FoldedIsFolded(a);
    FoldedIsFolded(b);
  }
}
