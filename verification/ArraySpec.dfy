/**
  The order that array.c keeps its indices in: by string, then by item number.
  An index is a permutation of the item numbers, and only one is sorted.
 */
module ArraySpec {
  import opened CStrings

  /** compare_indices(x, y) < 0. */
  predicate Before(items: seq<string>, x: int, y: int)
    requires 0 <= x < |items| && 0 <= y < |items|
  {
    Less(items[x], items[y]) || (items[x] == items[y] && x < y)
  }

  lemma BeforeIrreflexive(items: seq<string>, x: int)
    requires 0 <= x < |items|
    ensures !Before(items, x, x)
  {
    LessIrreflexive(items[x]);
  }

  lemma BeforeTransitive(items: seq<string>, x: int, y: int, z: int)
    requires 0 <= x < |items| && 0 <= y < |items| && 0 <= z < |items|
    requires Before(items, x, y) && Before(items, y, z)
    ensures Before(items, x, z)
  {
    if Less(items[x], items[y]) && Less(items[y], items[z]) {
      LessTransitive(items[x], items[y], items[z]);
    }
  }

  lemma BeforeTotal(items: seq<string>, x: int, y: int)
    requires 0 <= x < |items| && 0 <= y < |items|
    ensures x == y || Before(items, x, y) || Before(items, y, x)
  {
    LessTotal(items[x], items[y]);
  }

  lemma BeforeAsymmetric(items: seq<string>, x: int, y: int)
    requires 0 <= x < |items| && 0 <= y < |items| && Before(items, x, y)
    ensures !Before(items, y, x) && x != y
  {
    if Before(items, y, x) { BeforeTransitive(items, x, y, x); }
    BeforeIrreflexive(items, x);
  }

  // ----- permutations -----

  ghost predicate InRange(index: seq<int>, n: nat) {
    forall k :: 0 <= k < |index| ==> 0 <= index[k] < n
  }

  ghost predicate Injective(index: seq<int>) {
    forall i, j :: 0 <= i < j < |index| ==> index[i] != index[j]
  }

  ghost predicate Permutation(index: seq<int>, n: nat) {
    |index| == n && InRange(index, n) && Injective(index) && forall v :: 0 <= v < n ==> v in index
  }

  ghost predicate Sorted(items: seq<string>, index: seq<int>)
    requires InRange(index, |items|)
  {
    forall i, j :: 0 <= i < j < |index| ==> Before(items, index[i], index[j])
  }

  /** There is only one sorted permutation, so it does not matter how it came about. */
  lemma {:induction false} OneSorted(items: seq<string>, a: seq<int>, b: seq<int>, k: nat)
    requires Permutation(a, |items|) && Permutation(b, |items|) && Sorted(items, a) && Sorted(items, b)
    requires k <= |items|
    ensures a[..k] == b[..k]
  {
    if k > 0 {
      OneSorted(items, a, b, k - 1);
      var i := k - 1;
      NotAfter(items, a, b, i);
      NotAfter(items, b, a, i);
      if a[i] != b[i] { BeforeAsymmetric(items, a[i], b[i]); }
      assert a[..k] == a[..i] + [a[i]] && b[..k] == b[..i] + [b[i]];
    }
  }

  lemma NotAfter(items: seq<string>, a: seq<int>, b: seq<int>, i: nat)
    requires Permutation(a, |items|) && Permutation(b, |items|) && Sorted(items, a) && Sorted(items, b)
    requires i < |items| && a[..i] == b[..i]
    ensures a[i] == b[i] || Before(items, b[i], a[i])
  {
    assert a[i] in b;
    var j :| 0 <= j < |b| && b[j] == a[i];
    assert forall k :: 0 <= k < i ==> a[..i][k] == a[k] && b[..i][k] == b[k];
    assert forall k :: 0 <= k < i ==> a[k] == b[k];
  }

  lemma SortedIndexUnique(items: seq<string>, a: seq<int>, b: seq<int>)
    requires Permutation(a, |items|) && Permutation(b, |items|) && Sorted(items, a) && Sorted(items, b)
    ensures a == b
  {
    OneSorted(items, a, b, |items|);
    assert a[..|items|] == a && b[..|items|] == b;
  }

  // ----- putting in, taking out -----

  function Insert(index: seq<int>, p: nat, v: int): (r: seq<int>)
    requires p <= |index|
    ensures |r| == |index| + 1
    ensures forall k :: 0 <= k < |r| ==> r[k] == if k < p then index[k] else if k == p then v else index[k - 1]
  {
    index[..p] + [v] + index[p..]
  }

  function Remove<T>(index: seq<T>, o: nat): (r: seq<T>)
    requires o < |index|
    ensures |r| == |index| - 1
    ensures forall k :: 0 <= k < |r| ==> r[k] == if k < o then index[k] else index[k + 1]
  {
    index[..o] + index[o + 1..]
  }

  lemma InsertContains(index: seq<int>, p: nat, v: int, x: int)
    requires p <= |index|
    ensures x in Insert(index, p, v) <==> x == v || x in index
  {
  }

  lemma RemoveContains(index: seq<int>, o: nat, x: int)
    requires o < |index| && Injective(index)
    ensures x in Remove(index, o) <==> x in index && x != index[o]
  {
    var r := Remove(index, o);
    if x in index && x != index[o] {
      var k :| 0 <= k < |index| && index[k] == x;
      assert r[if k < o then k else k - 1] == x;
    }
    if x in r {
      var k :| 0 <= k < |r| && r[k] == x;
      assert index[if k < o then k else k + 1] == x;
    }
  }

  lemma InsertInjective(index: seq<int>, p: nat, v: int)
    requires p <= |index| && Injective(index) && v !in index
    ensures Injective(Insert(index, p, v))
  {
  }

  lemma RemoveInjective(index: seq<int>, o: nat)
    requires o < |index| && Injective(index)
    ensures Injective(Remove(index, o)) && index[o] !in Remove(index, o)
  {
    RemoveContains(index, o, index[o]);
  }

  /** A new item number goes in anywhere. */
  lemma InsertPermutation(index: seq<int>, p: nat)
    requires Permutation(index, |index|) && p <= |index|
    ensures Permutation(Insert(index, p, |index|), |index| + 1)
  {
    var n := |index|;
    InsertInjective(index, p, n);
    forall v | 0 <= v < n + 1
      ensures v in Insert(index, p, n)
    {
      InsertContains(index, p, n, v);
    }
  }

  /** Taking an entry out and putting it back elsewhere. */
  lemma MovePermutation(index: seq<int>, o: nat, p: nat)
    requires Permutation(index, |index|) && o < |index| && p < |index|
    ensures Permutation(Insert(Remove(index, o), p, index[o]), |index|)
  {
    var rest := Remove(index, o);
    RemoveInjective(index, o);
    InsertInjective(rest, p, index[o]);
    forall v | 0 <= v < |index|
      ensures v in Insert(rest, p, index[o])
    {
      RemoveContains(index, o, v);
      InsertContains(rest, p, index[o], v);
    }
  }

  lemma InsertSorted(items: seq<string>, rest: seq<int>, p: nat, v: int)
    requires p <= |rest| && InRange(rest, |items|) && 0 <= v < |items| && Sorted(items, rest)
    requires forall k :: 0 <= k < p ==> Before(items, rest[k], v)
    requires forall k :: p <= k < |rest| ==> Before(items, v, rest[k])
    ensures InRange(Insert(rest, p, v), |items|) && Sorted(items, Insert(rest, p, v))
  {
    var r := Insert(rest, p, v);
    forall i, j | 0 <= i < j < |r|
      ensures Before(items, r[i], r[j])
    {
      if i < p && j < p {
        assert r[i] == rest[i] && r[j] == rest[j];
      }
    }
  }

  lemma RemoveSorted(items: seq<string>, index: seq<int>, o: nat)
    requires o < |index| && InRange(index, |items|) && Sorted(items, index)
    ensures InRange(Remove(index, o), |items|) && Sorted(items, Remove(index, o))
  {
  }

  // ----- the sort -----

  /** Where v belongs in a sorted index. */
  function Rank(items: seq<string>, index: seq<int>, v: int): (p: nat)
    requires InRange(index, |items|) && 0 <= v < |items|
    ensures p <= |index|
  {
    if index == [] || Before(items, v, index[0]) then 0 else 1 + Rank(items, index[1..], v)
  }

  lemma {:induction false} RankSplits(items: seq<string>, index: seq<int>, v: int)
    requires InRange(index, |items|) && 0 <= v < |items| && Sorted(items, index) && v !in index
    ensures var p := Rank(items, index, v);
      (forall k :: 0 <= k < p ==> Before(items, index[k], v)) &&
      (forall k :: p <= k < |index| ==> Before(items, v, index[k]))
  {
    if index == [] {
    } else if Before(items, v, index[0]) {
      forall k | 0 <= k < |index|
        ensures Before(items, v, index[k])
      {
        if k > 0 { BeforeTransitive(items, v, index[0], index[k]); }
      }
    } else {
      var rest := index[1..];
      BeforeTotal(items, v, index[0]);
      RankSplits(items, rest, v);
      var p := Rank(items, rest, v);
      forall k | 0 <= k < p + 1
        ensures Before(items, index[k], v)
      {
        if k > 0 { assert index[k] == rest[k - 1]; }
      }
      forall k | p + 1 <= k < |index|
        ensures Before(items, v, index[k])
      {
        assert index[k] == rest[k - 1];
      }
    }
  }

  /** Any sort will do for qsort; this one inserts. */
  function SortIndex(items: seq<string>, index: seq<int>): (r: seq<int>)
    requires InRange(index, |items|)
    ensures InRange(r, |items|) && |r| == |index|
  {
    if index == [] then [] else
      var r := SortIndex(items, index[1..]);
      Insert(r, Rank(items, r, index[0]), index[0])
  }

  lemma {:induction false} SortIndexSorts(items: seq<string>, index: seq<int>)
    requires InRange(index, |items|) && Injective(index)
    ensures var r := SortIndex(items, index);
      Sorted(items, r) && Injective(r) && forall v :: v in r <==> v in index
    decreases |index|
  {
    if index != [] {
      var v, rest := index[0], index[1..];
      var r := SortIndex(items, rest);
      var p := Rank(items, r, v);
      SortIndexSorts(items, rest);
      assert v !in r;
      RankSplits(items, r, v);
      InsertSorted(items, r, p, v);
      InsertInjective(r, p, v);
      forall x
        ensures x in Insert(r, p, v) <==> x in index
      {
        InsertContains(r, p, v, x);
        assert index == [v] + rest;
      }
    }
  }

  // ----- renumbering -----

  /** How many entries are `item` or more. */
  function CountFrom(index: seq<int>, item: int): (n: nat)
    ensures n <= |index|
  {
    if index == [] then 0 else CountFrom(index[..|index| - 1], item) + if index[|index| - 1] >= item then 1 else 0
  }

  lemma {:induction false} CountRemoved(index: seq<int>, o: nat, item: int)
    requires o < |index|
    ensures CountFrom(index, item) == CountFrom(Remove(index, o), item) + if index[o] >= item then 1 else 0
    decreases |index|
  {
    var n := |index| - 1;
    if o == n {
      assert Remove(index, o) == index[..n];
    } else {
      CountRemoved(index[..n], o, item);
      assert Remove(index, o)[..n - 1] == Remove(index[..n], o);
      assert Remove(index, o)[n - 1] == index[n];
    }
  }

  /** In a permutation of n item numbers exactly n - item are `item` or more. */
  lemma {:induction false} CountInPermutation(index: seq<int>, n: nat, item: nat)
    requires Permutation(index, n) && item <= n
    ensures CountFrom(index, item) == n - item
    decreases n
  {
    if n > 0 {
      assert n - 1 in index;
      var o :| 0 <= o < n && index[o] == n - 1;
      CountRemoved(index, o, item);
      var rest := Remove(index, o);
      RemoveInjective(index, o);
      forall v | 0 <= v < n - 1
        ensures v in rest
      {
        RemoveContains(index, o, v);
      }
      forall k | 0 <= k < |rest|
        ensures 0 <= rest[k] < n - 1
      {
        assert rest[k] in rest;
        RemoveContains(index, o, rest[k]);
      }
      if item == n {
        NoneFrom(rest, n - 1, item);
      } else {
        CountInPermutation(rest, n - 1, item);
      }
    }
  }

  lemma {:induction false} NoneFrom(index: seq<int>, n: nat, item: int)
    requires InRange(index, n) && n <= item
    ensures CountFrom(index, item) == 0
  {
    if index != [] { NoneFrom(index[..|index| - 1], n, item); }
  }

  /** The entry numbers when item `item` is gone and the ones above it have moved down. */
  function Renumbered(index: seq<int>, item: int): (r: seq<int>)
    ensures |r| == |index|
    ensures forall k :: 0 <= k < |r| ==> r[k] == if index[k] >= item then index[k] - 1 else index[k]
  {
    seq(|index|, k requires 0 <= k < |index| => if index[k] >= item then index[k] - 1 else index[k])
  }

  function RestAt(index: seq<int>, o: nat, k: nat): int
    requires o < |index| && k < |index| - 1
  {
    if k < o then index[k] else index[k + 1]
  }

  lemma RenumberedAt(index: seq<int>, o: nat, item: nat, k: nat)
    requires Permutation(index, |index|) && o < |index| && index[o] == item && k < |index| - 1
    ensures var (v, r) := (RestAt(index, o, k), Remove(Renumbered(index, item), o));
      v != item && r[k] == (if v > item then v - 1 else v) && 0 <= r[k] < |index| - 1
  {
  }

  lemma RestDiffers(index: seq<int>, o: nat, i: nat, j: nat)
    requires Injective(index) && o < |index| && i < j < |index| - 1
    ensures RestAt(index, o, i) != RestAt(index, o, j)
  {
  }

  lemma RenumberedPermutation(index: seq<int>, o: nat, item: nat)
    requires Permutation(index, |index|) && o < |index| && index[o] == item
    ensures Permutation(Remove(Renumbered(index, item), o), |index| - 1)
  {
    var n := |index|;
    var r := Remove(Renumbered(index, item), o);
    forall k | 0 <= k < |r|
      ensures 0 <= r[k] < n - 1
    {
      RenumberedAt(index, o, item, k);
    }
    forall i, j | 0 <= i < j < |r|
      ensures r[i] != r[j]
    {
      RestDiffers(index, o, i, j);
      RenumberedAt(index, o, item, i);
      RenumberedAt(index, o, item, j);
    }
    forall v | 0 <= v < n - 1
      ensures v in r
    {
      RenumberedHas(index, o, item, v);
    }
  }

  lemma RenumberedHas(index: seq<int>, o: nat, item: nat, v: nat)
    requires Permutation(index, |index|) && o < |index| && index[o] == item && v < |index| - 1
    ensures v in Remove(Renumbered(index, item), o)
  {
    var was := if v < item then v else v + 1;
    assert was in index;
    var k :| 0 <= k < |index| && index[k] == was;
    RenumberedAt(index, o, item, if k < o then k else k - 1);
  }

  lemma RenumberedSorted(items: seq<string>, index: seq<int>, o: nat, item: nat)
    requires Permutation(index, |index|) && |items| == |index| && o < |index| && index[o] == item
    requires Sorted(items, index)
    ensures var r := Remove(Renumbered(index, item), o);
      InRange(r, |items| - 1) && Sorted(Remove(items, item), r)
  {
    var r, less := Remove(Renumbered(index, item), o), Remove(items, item);
    RenumberedPermutation(index, o, item);
    forall i, j | 0 <= i < j < |r|
      ensures Before(less, r[i], r[j])
    {
      RenumberedAt(index, o, item, i);
      RenumberedAt(index, o, item, j);
      RestSorted(items, index, o, i, j);
      BeforeShrinks(items, item, RestAt(index, o, i), RestAt(index, o, j));
    }
  }

  lemma BeforeShrinks(items: seq<string>, item: nat, x: int, y: int)
    requires item < |items| && 0 <= x < |items| && 0 <= y < |items| && x != item && y != item && Before(items, x, y)
    ensures var (x', y') := (if x > item then x - 1 else x, if y > item then y - 1 else y);
      Before(Remove(items, item), x', y')
  {
  }

  lemma RestSorted(items: seq<string>, index: seq<int>, o: nat, i: nat, j: nat)
    requires InRange(index, |items|) && Sorted(items, index) && o < |index| && i < j < |index| - 1
    ensures Before(items, RestAt(index, o, i), RestAt(index, o, j))
  {
  }

  // ----- deleting many -----

  datatype Slot = Freed | Held(text: string)

  /** The items once those that are listed have been freed. */
  function Holes(items: seq<string>, listed: seq<int>): (r: seq<Slot>)
    ensures |r| == |items|
    ensures forall k :: 0 <= k < |r| ==> r[k] == if k in listed then Freed else Held(items[k])
  {
    seq(|items|, k requires 0 <= k < |items| => if k in listed then Freed else Held(items[k]))
  }

  function CountFreed(slots: seq<Slot>): (n: nat)
    ensures n <= |slots|
  {
    if slots == [] then 0 else CountFreed(slots[..|slots| - 1]) + if slots[|slots| - 1].Freed? then 1 else 0
  }

  /** What is left, in the order it was in. */
  function Survivors(slots: seq<Slot>): (r: seq<string>)
    ensures |r| == |slots| - CountFreed(slots)
  {
    if slots == [] then [] else
      var last := slots[|slots| - 1];
      Survivors(slots[..|slots| - 1]) + if last.Held? then [last.text] else []
  }

  lemma {:induction false} FreeOne(slots: seq<Slot>, k: nat)
    requires k < |slots| && slots[k].Held?
    ensures CountFreed(slots[k := Freed]) == CountFreed(slots) + 1
    decreases |slots|
  {
    var n := |slots| - 1;
    var r := slots[k := Freed];
    if k == n {
      assert r[..n] == slots[..n];
    } else {
      FreeOne(slots[..n], k);
      assert r[..n] == slots[..n][k := Freed];
    }
  }

  /** All but one are freed: which of them is not? */
  lemma {:induction false} OneHeld(slots: seq<Slot>, k: nat)
    requires k < |slots| && slots[k].Held? && CountFreed(slots) + 1 == |slots|
    ensures forall i :: 0 <= i < |slots| && i != k ==> slots[i].Freed?
    decreases |slots|
  {
    var n := |slots| - 1;
    if k == n {
      AllFreed(slots[..n]);
      assert forall i :: 0 <= i < n ==> slots[..n][i] == slots[i];
    } else {
      if slots[n].Held? { AllFreed(slots[..n]); }
      OneHeld(slots[..n], k);
      assert forall i :: 0 <= i < n ==> slots[..n][i] == slots[i];
    }
  }

  lemma {:induction false} AllFreed(slots: seq<Slot>)
    requires CountFreed(slots) == |slots|
    ensures forall i :: 0 <= i < |slots| ==> slots[i].Freed?
  {
    if slots != [] { AllFreed(slots[..|slots| - 1]); }
  }

  lemma {:induction false} NoneFreed(items: seq<string>)
    ensures CountFreed(Holes(items, [])) == 0
  {
    if items != [] {
      NoneFreed(items[..|items| - 1]);
      assert Holes(items, [])[..|items| - 1] == Holes(items[..|items| - 1], []);
    }
  }

  lemma {:induction false} CountAllFreed(slots: seq<Slot>)
    requires forall i :: 0 <= i < |slots| ==> slots[i].Freed?
    ensures CountFreed(slots) == |slots|
  {
    if slots != [] { CountAllFreed(slots[..|slots| - 1]); }
  }

  lemma HolesStep(items: seq<string>, listed: seq<int>, i: nat)
    requires i < |listed|
    ensures Holes(items, listed[..i + 1]) ==
      if 0 <= listed[i] < |items| then Holes(items, listed[..i])[listed[i] := Freed] else Holes(items, listed[..i])
  {
    assert listed[..i + 1] == listed[..i] + [listed[i]];
  }

  lemma SurvivorStep(slots: seq<Slot>, n: nat)
    requires n < |slots|
    ensures Survivors(slots[..n + 1]) == Survivors(slots[..n]) + if slots[n].Held? then [slots[n].text] else []
  {
    assert slots[..n + 1][..n] == slots[..n];
  }

  function Identity(n: nat): (r: seq<int>)
    ensures |r| == n && forall k :: 0 <= k < n ==> r[k] == k
  {
    seq(n, k => k)
  }

  lemma IdentityPermutation(n: nat)
    ensures Permutation(Identity(n), n)
  {
    forall v | 0 <= v < n
      ensures v in Identity(n)
    {
      assert Identity(n)[v] == v;
    }
  }
}
