/**
  The member lists of objects: lookup by name, detaching, and the merge sort
  that the utilities run before they walk two objects side by side.
 */
module Members {
  import opened CStrings
  import opened JsonValues

  // ----- lookup -----

  /** The index of the first member of that name, or |ms|. */
  function FindMember(ms: seq<Member>, name: string, caseSensitive: bool): (r: nat)
    ensures r <= |ms|
    ensures forall i :: 0 <= i < r ==> View(ms[i].key, caseSensitive) != View(name, caseSensitive)
    ensures r < |ms| ==> View(ms[r].key, caseSensitive) == View(name, caseSensitive)
  {
    if ms == [] then 0
    else if CompareStrings(name, ms[0].key, caseSensitive) == 0 then 0
    else 1 + FindMember(ms[1..], name, caseSensitive)
  }

  /** get_object_item: walk the child list until the names agree. */
  method GetObjectItem(ms: seq<Member>, name: string, caseSensitive: bool) returns (r: nat)
    ensures r == FindMember(ms, name, caseSensitive)
  {
    r := 0;
    while r < |ms| && CompareStrings(name, ms[r].key, caseSensitive) != 0
      invariant r <= |ms|
      invariant FindMember(ms, name, caseSensitive) == r + FindMember(ms[r..], name, caseSensitive)
    {
      assert ms[r..][1..] == ms[r + 1..];
      r := r + 1;
    }
  }

  /** What the first member of exactly that name holds. */
  function Lookup(ms: seq<Member>, name: string): Option<Json> {
    var i := FindMember(ms, name, true);
    if i < |ms| then Some(ms[i].val) else None
  }

  lemma LookupAt(ms: seq<Member>, i: nat)
    requires UniqueKeys(ms) && i < |ms|
    ensures Lookup(ms, ms[i].key) == Some(ms[i].val)
  {
  }

  lemma {:induction false} FindMeaning(ms: seq<Member>, name: string)
    ensures name in MembersMeaning(ms) <==> FindMember(ms, name, true) < |ms|
    ensures var i := FindMember(ms, name, true);
      i < |ms| ==> ms[i].key == name && MembersMeaning(ms)[name] == Meaning(ms[i].val)
  {
    if ms != [] {
      FindMeaning(ms[1..], name);
    }
  }

  /** Looking a name up goes on behind a head of another name. */
  lemma Heads(ms: seq<Member>, k: string)
    requires UniqueKeys(ms)
    ensures ms == [] ==> Lookup(ms, k).None?
    ensures ms != [] && ms[0].key == k ==> Lookup(ms, k) == Some(ms[0].val) && Lookup(ms[1..], k).None?
    ensures ms != [] && ms[0].key != k ==> Lookup(ms[1..], k) == Lookup(ms, k)
  {
  }

  // ----- editing -----

  function RemoveAt<T>(s: seq<T>, i: nat): (r: seq<T>)
    requires i < |s|
    ensures |r| == |s| - 1
  {
    s[..i] + s[i + 1..]
  }

  lemma RemoveUnique(ms: seq<Member>, i: nat)
    requires UniqueKeys(ms) && i < |ms|
    ensures UniqueKeys(RemoveAt(ms, i))
  {
  }

  lemma PutAgain<V>(m: map<string, V>, k: string, v: V)
    ensures (m - {k})[k := v] == m[k := v]
  {
  }

  lemma PutAndRemove<V>(m: map<string, V>, j: string, k: string, v: V)
    requires j != k
    ensures m[j := v] - {k} == (m - {k})[j := v]
  {
  }

  lemma RemoveFromTail<T>(s: seq<T>, i: nat)
    requires 0 < i < |s|
    ensures var r := RemoveAt(s, i); r[0] == s[0] && r[1..] == RemoveAt(s[1..], i - 1)
    ensures s[1..][i - 1] == s[i]
  {
  }

  lemma {:induction false} RemoveMeaning(ms: seq<Member>, i: nat)
    requires UniqueKeys(ms) && i < |ms|
    ensures MembersMeaning(RemoveAt(ms, i)) == MembersMeaning(ms) - {ms[i].key}
  {
    var r, tail := RemoveAt(ms, i), ms[1..];
    ConsMeaning(ms);
    FindMeaning(tail, ms[0].key);
    hide MembersMeaning;
    hide Meaning;
    if i == 0 {
      assert r == tail;
    } else {
      RemoveMeaning(tail, i - 1);
      RemoveFromTail(ms, i);
      ConsMeaning(r);
      PutAndRemove(MembersMeaning(tail), ms[0].key, ms[i].key, Meaning(ms[0].val));
    }
  }

  lemma AppendMeaning(ms: seq<Member>, m: Member)
    requires m.key !in MembersMeaning(ms)
    ensures MembersMeaning(ms + [m]) == MembersMeaning(ms)[m.key := Meaning(m.val)]
    ensures UniqueKeys(ms) ==> UniqueKeys(ms + [m])
  {
    MembersMeaningConcat(ms, [m]);
    FindMeaning(ms, m.key);
    assert MembersMeaning([m]) == map[m.key := Meaning(m.val)];
  }

  ghost predicate Named(ms: seq<Member>, ks: iset<string>) {
    UniqueKeys(ms) && forall i :: 0 <= i < |ms| ==> ms[i].key in ks
  }

  lemma LookupWithout(ms: seq<Member>, i: nat, k: string)
    requires UniqueKeys(ms) && i < |ms|
    ensures Lookup(RemoveAt(ms, i), k) == if k == ms[i].key then None else Lookup(ms, k)
  {
    var r := RemoveAt(ms, i);
    RemoveUnique(ms, i);
    assert forall n :: 0 <= n < |r| ==> r[n] == ms[if n < i then n else n + 1];
    var j := FindMember(ms, k, true);
    if j < |ms| && j != i {
      LookupAt(ms, j);
      LookupAt(r, if j < i then j else j - 1);
    }
  }

  lemma LookupAppended(ms: seq<Member>, m: Member, k: string)
    requires UniqueKeys(ms) && Lookup(ms, m.key).None?
    ensures UniqueKeys(ms + [m])
    ensures Lookup(ms + [m], k) == if k == m.key then Some(m.val) else Lookup(ms, k)
  {
    var r := ms + [m];
    var j := FindMember(ms, k, true);
    if k == m.key { LookupAt(r, |ms|); } else if j < |ms| { LookupAt(r, j); }
  }

  // ----- sorting -----

  /** compare_strings puts a before b. */
  predicate Before(a: Member, b: Member, caseSensitive: bool) {
    Less(View(a.key, caseSensitive), View(b.key, caseSensitive))
  }

  predicate StrictlySorted(ms: seq<Member>, caseSensitive: bool) {
    forall i, j :: 0 <= i < j < |ms| ==> Before(ms[i], ms[j], caseSensitive)
  }

  predicate Sorted(ms: seq<Member>, caseSensitive: bool) {
    forall i, j :: 0 <= i < j < |ms| ==> !Before(ms[j], ms[i], caseSensitive)
  }

  /** The first scan of sort_list: is the list strictly increasing already? */
  predicate Ascending(ms: seq<Member>, caseSensitive: bool) {
    |ms| <= 1 || (Before(ms[0], ms[1], caseSensitive) && Ascending(ms[1..], caseSensitive))
  }

  lemma {:induction false} AscendingIsSorted(ms: seq<Member>, caseSensitive: bool)
    requires Ascending(ms, caseSensitive)
    ensures StrictlySorted(ms, caseSensitive)
  {
    if |ms| > 1 {
      AscendingIsSorted(ms[1..], caseSensitive);
      forall j | 1 < j < |ms|
        ensures Before(ms[0], ms[j], caseSensitive)
      {
        assert Before(ms[1..][0], ms[1..][j - 1], caseSensitive);
        LessTransitive(View(ms[0].key, caseSensitive), View(ms[1].key, caseSensitive), View(ms[j].key, caseSensitive));
      }
      forall i, j | 0 <= i < j < |ms|
        ensures Before(ms[i], ms[j], caseSensitive)
      {
        if i > 0 { assert Before(ms[1..][i - 1], ms[1..][j - 1], caseSensitive); }
      }
    }
  }

  lemma StrictIsSorted(ms: seq<Member>, caseSensitive: bool)
    requires StrictlySorted(ms, caseSensitive)
    ensures Sorted(ms, caseSensitive)
  {
    forall i, j | 0 <= i < j < |ms|
      ensures !Before(ms[j], ms[i], caseSensitive)
    {
      LessAsymmetric(View(ms[i].key, caseSensitive), View(ms[j].key, caseSensitive));
    }
  }

  lemma HeadAndTail<T>(s: seq<T>)
    requires s != []
    ensures multiset(s) == multiset{s[0]} + multiset(s[1..])
  {
    assert s == [s[0]] + s[1..];
  }

  function Cons<T>(x: T, s: seq<T>): (r: seq<T>)
    ensures multiset(r) == multiset{x} + multiset(s)
  {
    [x] + s
  }

  /** The merge loop: the second list goes first on a tie. */
  function Merge(a: seq<Member>, b: seq<Member>, caseSensitive: bool): (r: seq<Member>)
    ensures multiset(r) == multiset(a) + multiset(b)
    ensures |r| == |a| + |b|
    decreases |a| + |b|
  {
    if a == [] then b
    else if b == [] then a
    else if Before(a[0], b[0], caseSensitive) then
      HeadAndTail(a);
      Cons(a[0], Merge(a[1..], b, caseSensitive))
    else
      HeadAndTail(b);
      Cons(b[0], Merge(a, b[1..], caseSensitive))
  }

  function SortMembers(ms: seq<Member>, caseSensitive: bool): (r: seq<Member>)
    ensures multiset(r) == multiset(ms)
    ensures |r| == |ms|
    decreases |ms|
  {
    if |ms| <= 1 || Ascending(ms, caseSensitive) then ms else
      var mid := (|ms| + 1) / 2;
      assert ms == ms[..mid] + ms[mid..];
      Merge(SortMembers(ms[..mid], caseSensitive), SortMembers(ms[mid..], caseSensitive), caseSensitive)
  }

  lemma {:induction false} BelowAll(m: Member, ms: seq<Member>, caseSensitive: bool)
    requires Sorted(ms, caseSensitive) && (ms != [] ==> !Before(ms[0], m, caseSensitive))
    ensures forall x :: x in ms ==> !Before(x, m, caseSensitive)
  {
    forall x | x in ms
      ensures !Before(x, m, caseSensitive)
    {
      var i :| 0 <= i < |ms| && ms[i] == x;
      if i > 0 && Before(x, m, caseSensitive) {
        var kx, km, k0 := View(x.key, caseSensitive), View(m.key, caseSensitive), View(ms[0].key, caseSensitive);
        LessTotal(k0, km);
        if k0 != km { LessTransitive(kx, km, k0); }
      }
    }
  }

  lemma {:induction false} MergeSorted(a: seq<Member>, b: seq<Member>, caseSensitive: bool)
    requires Sorted(a, caseSensitive) && Sorted(b, caseSensitive)
    ensures Sorted(Merge(a, b, caseSensitive), caseSensitive)
    decreases |a| + |b|
  {
    if a != [] && b != [] {
      var ka, kb := View(a[0].key, caseSensitive), View(b[0].key, caseSensitive);
      LessIrreflexive(ka);
      LessIrreflexive(kb);
      if Before(a[0], b[0], caseSensitive) {
        LessAsymmetric(ka, kb);
        assert a == [a[0]] + a[1..];
        MergeSorted(a[1..], b, caseSensitive);
        ConsSorted(a[0], a, b, a[1..], b, Merge(a[1..], b, caseSensitive), caseSensitive);
      } else {
        assert b == [b[0]] + b[1..];
        MergeSorted(a, b[1..], caseSensitive);
        ConsSorted(b[0], a, b, a, b[1..], Merge(a, b[1..], caseSensitive), caseSensitive);
      }
    }
  }

  lemma ConsSorted(m: Member, a: seq<Member>, b: seq<Member>, a': seq<Member>, b': seq<Member>,
                   r: seq<Member>, caseSensitive: bool)
    requires Sorted(a, caseSensitive) && Sorted(b, caseSensitive) && Sorted(r, caseSensitive)
    requires a != [] && !Before(a[0], m, caseSensitive)
    requires b != [] && !Before(b[0], m, caseSensitive)
    requires multiset(a') <= multiset(a) && multiset(b') <= multiset(b)
    requires multiset(r) == multiset(a') + multiset(b')
    ensures Sorted([m] + r, caseSensitive)
  {
    BelowAll(m, a, caseSensitive);
    BelowAll(m, b, caseSensitive);
    forall x | x in r
      ensures !Before(x, m, caseSensitive)
    {
      assert x in multiset(r);
      assert x in multiset(a) || x in multiset(b);
    }
  }

  lemma {:induction false} SortIsSorted(ms: seq<Member>, caseSensitive: bool)
    ensures Sorted(SortMembers(ms, caseSensitive), caseSensitive)
    decreases |ms|
  {
    if |ms| <= 1 {
    } else if Ascending(ms, caseSensitive) {
      AscendingIsSorted(ms, caseSensitive);
      StrictIsSorted(ms, caseSensitive);
    } else {
      var mid := (|ms| + 1) / 2;
      SortIsSorted(ms[..mid], caseSensitive);
      SortIsSorted(ms[mid..], caseSensitive);
      MergeSorted(SortMembers(ms[..mid], caseSensitive), SortMembers(ms[mid..], caseSensitive), caseSensitive);
    }
  }

  // ----- sorting objects with unique keys -----

  lemma {:induction false} TwoCopies<T>(s: seq<T>, i: nat, j: nat)
    requires i < j < |s| && s[i] == s[j]
    ensures multiset(s)[s[i]] >= 2
  {
    assert s == s[..j] + [s[j]] + s[j + 1..];
    assert s[i] in s[..j];
  }

  lemma {:induction false} CopyTwice<T>(s: seq<T>, x: T)
    requires multiset(s)[x] >= 2
    ensures exists i, j :: 0 <= i < j < |s| && s[i] == x && s[j] == x
  {
    var i :| 0 <= i < |s| && s[i] == x;
    assert s == s[..i] + [x] + s[i + 1..];
    if x in s[i + 1..] {
      var j :| 0 <= j < |s[i + 1..]| && s[i + 1..][j] == x;
      assert s[i + 1 + j] == x;
    } else {
      assert x in s[..i];
      var j :| 0 <= j < i && s[j] == x;
      assert s[j] == x && s[i] == x;
    }
  }

  lemma PermutedKeys(a: seq<Member>, b: seq<Member>)
    requires UniqueKeys(a) && multiset(a) == multiset(b)
    ensures UniqueKeys(b)
  {
    forall i, j | 0 <= i < j < |b|
      ensures b[i].key != b[j].key
    {
      if b[i].key == b[j].key {
        assert b[i] in multiset(a) && b[j] in multiset(a);
        assert b[i] == b[j];
        TwoCopies(b, i, j);
        CopyTwice(a, b[i]);
      }
    }
  }

  lemma PermutedMeaning(a: seq<Member>, b: seq<Member>)
    requires UniqueKeys(a) && multiset(a) == multiset(b)
    ensures UniqueKeys(b) && MembersMeaning(a) == MembersMeaning(b)
  {
    PermutedKeys(a, b);
    forall k
      ensures k in MembersMeaning(a) <==> k in MembersMeaning(b)
      ensures k in MembersMeaning(a) ==> MembersMeaning(a)[k] == MembersMeaning(b)[k]
    {
      FindMeaning(a, k);
      FindMeaning(b, k);
      var i, j := FindMember(a, k, true), FindMember(b, k, true);
      if i < |a| {
        assert a[i] in multiset(b);
        var j' :| 0 <= j' < |b| && b[j'] == a[i];
        MemberMeaning(b, j');
      }
      if j < |b| {
        assert b[j] in multiset(a);
        var i' :| 0 <= i' < |a| && a[i'] == b[j];
        MemberMeaning(a, i');
      }
    }
  }

  /** No two keys differ in case only. */
  ghost predicate FoldInjective(ks: iset<string>) {
    forall a, b :: a in ks && b in ks && Fold(a) == Fold(b) ==> a == b
  }

  /** The keys of two objects. */
  ghost function KeysOf(p: map<string, Value>, q: map<string, Value>): iset<string> {
    iset k | k in p || k in q
  }

  /** No two names that meet in a pair of corresponding objects differ in case only. */
  ghost predicate Apart(a: Value, b: Value)
    decreases a
  {
    match (a, b)
    case (VArray(x), VArray(y)) => forall i :: 0 <= i < |x| && i < |y| ==> Apart(x[i], y[i])
    case (VObject(p), VObject(q)) => FoldInjective(KeysOf(p, q)) && forall k :: k in p && k in q ==> Apart(p[k], q[k])
    case _ => true
  }

  lemma NamedBy(ms: seq<Member>, ks: iset<string>)
    requires UniqueKeys(ms) && forall k :: k in MembersMeaning(ms) ==> k in ks
    ensures Named(ms, ks)
  {
    forall i | 0 <= i < |ms|
      ensures ms[i].key in ks
    {
      MemberMeaning(ms, i);
    }
  }

  /** Whichever order sort_object uses, such an object comes out strictly sorted in it. */
  lemma SortObject(ms: seq<Member>, ks: iset<string>, caseSensitive: bool)
    requires Named(ms, ks) && (caseSensitive || FoldInjective(ks))
    ensures var r := SortMembers(ms, caseSensitive);
      StrictlySorted(r, caseSensitive) && Named(r, ks) &&
      MembersMeaning(r) == MembersMeaning(ms) && forall m :: m in r <==> m in ms
  {
    hide SortMembers;
    hide MembersMeaning;
    hide Less;
    hide Fold;
    var r := SortMembers(ms, caseSensitive);
    SortIsSorted(ms, caseSensitive);
    PermutedMeaning(ms, r);
    SameMembers(ms, r);
    assert forall i :: 0 <= i < |r| ==> r[i] in ms;
    forall i, j | 0 <= i < j < |r|
      ensures Before(r[i], r[j], caseSensitive)
    {
      LessTotal(View(r[i].key, caseSensitive), View(r[j].key, caseSensitive));
    }
  }

  lemma SortUnique(ms: seq<Member>, caseSensitive: bool)
    requires Unique(Object(ms))
    ensures var r := SortMembers(ms, caseSensitive); Unique(Object(r)) && MembersMeaning(r) == MembersMeaning(ms)
  {
    var r := SortMembers(ms, caseSensitive);
    hide SortMembers;
    PermutedMeaning(ms, r);
    SameMembers(ms, r);
    hide MembersMeaning;
    assert forall i :: 0 <= i < |r| ==> r[i] in ms;
  }

  lemma SameMembers(a: seq<Member>, b: seq<Member>)
    requires multiset(a) == multiset(b)
    ensures forall m :: m in a <==> m in b
  {
    forall m
      ensures m in a <==> m in b
    {
      assert m in a <==> m in multiset(a);
      assert m in b <==> m in multiset(b);
    }
  }

  lemma SortedLookup(ms: seq<Member>, k: string, caseSensitive: bool)
    requires UniqueKeys(ms)
    ensures var r := SortMembers(ms, caseSensitive); UniqueKeys(r) && Lookup(r, k) == Lookup(ms, k)
  {
    var r := SortMembers(ms, caseSensitive);
    PermutedKeys(ms, r);
    SameMembers(ms, r);
    var i, j := FindMember(ms, k, true), FindMember(r, k, true);
    if i < |ms| {
      assert ms[i] in r;
      var n :| 0 <= n < |r| && r[n] == ms[i];
      LookupAt(r, n);
    }
    assert j < |r| ==> r[j] in ms;
  }

  // ----- where the two orders agree -----

  /** Keys that both orders sort alike. */
  ghost predicate FoldMonotone(ks: iset<string>) {
    forall a, b :: a in ks && b in ks && Less(a, b) ==> Less(Fold(a), Fold(b))
  }

  lemma MonotoneIsInjective(ks: iset<string>)
    requires FoldMonotone(ks)
    ensures FoldInjective(ks)
  {
    forall a, b | a in ks && b in ks && Fold(a) == Fold(b)
      ensures a == b
    {
      LessTotal(a, b);
      LessIrreflexive(Fold(a));
    }
  }

  /** Keys without capitals are an instance. */
  lemma LowerCaseMonotone(ks: iset<string>)
    requires forall k :: k in ks ==> forall i :: 0 <= i < |k| ==> !('A' <= k[i] <= 'Z')
    ensures FoldMonotone(ks)
  {
    forall k | k in ks
      ensures Fold(k) == k
    {
      assert forall i :: 0 <= i < |k| ==> ToLower(k[i]) == k[i];
    }
  }

  lemma MonotoneSorted(ms: seq<Member>, ks: iset<string>)
    requires StrictlySorted(ms, false) && FoldMonotone(ks) && forall i :: 0 <= i < |ms| ==> ms[i].key in ks
    ensures StrictlySorted(ms, true)
  {
    hide Less;
    hide Fold;
    forall i, j | 0 <= i < j < |ms|
      ensures Before(ms[i], ms[j], true)
    {
      var a, b := ms[i].key, ms[j].key;
      assert Before(ms[i], ms[j], false);
      LessTotal(a, b);
      LessAsymmetric(Fold(a), Fold(b));
    }
  }
}
