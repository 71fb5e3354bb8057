/**
  The arrays of array.c: strings in the order of their item numbers, and an
  index of the item numbers that is sorted by string, at once or on demand.
 */
module IndexedArrays {
  import opened CStrings
  import opened ArraySpec

  const ARRAY_THRESHOLD := 10

  /** What a search compares an entry with; without an item number only the string counts. */
  function Comparison(items: seq<string>, find: string, item: int, y: int): int
    requires 0 <= y < |items|
  {
    var c := StrCmp(find, items[y]);
    if c == 0 then (if item < 0 then 0 else item - y) else c
  }

  lemma Descends(items: seq<string>, find: string, item: int, x: int, y: int)
    requires 0 <= x < |items| && 0 <= y < |items| && Before(items, x, y)
    ensures Comparison(items, find, item, x) < 0 ==> Comparison(items, find, item, y) < 0
    ensures Comparison(items, find, item, y) > 0 ==> Comparison(items, find, item, x) > 0
    ensures Comparison(items, find, item, x) == 0 ==> Comparison(items, find, item, y) <= 0
    ensures item >= 0 && Comparison(items, find, item, x) == 0 ==> Comparison(items, find, item, y) < 0
    ensures item >= 0 && Comparison(items, find, item, y) == 0 ==> Comparison(items, find, item, x) > 0
  {
    var (a, b) := (items[x], items[y]);
    LessIrreflexive(find);
    LessTotal(find, a);
    LessTotal(find, b);
    if Less(a, b) {
      LessAsymmetric(a, b);
      if Less(find, a) { LessTransitive(find, a, b); LessAsymmetric(find, b); }
      if Less(b, find) { LessTransitive(a, b, find); LessAsymmetric(a, find); }
    }
  }

  /** The answer of a comparison is the order once the item has its string. */
  lemma ComparisonOrders(items: seq<string>, after: seq<string>, find: string, number: int, y: int)
    requires 0 <= y < |items| && y < |after| && 0 <= number < |after| && y != number
    requires after[y] == items[y] && after[number] == find
    ensures Comparison(items, find, number, y) > 0 ==> Before(after, y, number)
    ensures Comparison(items, find, number, y) < 0 ==> Before(after, number, y)
  {
    LessTotal(find, items[y]);
  }

  lemma UpdateKeepsOrder(items: seq<string>, rest: seq<int>, number: nat, input: string)
    requires number < |items| && InRange(rest, |items|) && Sorted(items, rest) && number !in rest
    ensures Sorted(items[number := input], rest)
  {
  }

  /** The place p for the new string, seen from the index with the old one in it. */
  lemma UpdateSorted(items: seq<string>, index: seq<int>, o: nat, number: nat, input: string, p: nat)
    requires Permutation(index, |items|) && Sorted(items, index) && o < |index| && index[o] == number && p <= |index|
    requires forall k :: 0 <= k < p && k != o ==> Comparison(items, input, number, index[k]) > 0
    requires forall k :: p <= k < |index| && k != o ==> Comparison(items, input, number, index[k]) < 0
    ensures var r := Insert(Remove(index, o), if p > o then p - 1 else p, number);
      InRange(r, |items|) && Sorted(items[number := input], r)
  {
    var rest, q, after := Remove(index, o), if p > o then p - 1 else p, items[number := input];
    RemoveSorted(items, index, o);
    RemoveInjective(index, o);
    UpdateKeepsOrder(items, rest, number, input);
    forall k | 0 <= k < |rest|
      ensures k < q ==> Before(after, rest[k], number)
      ensures q <= k ==> Before(after, number, rest[k])
    {
      assert rest[k] in rest;
      var i := if k < o then k else k + 1;
      assert rest[k] == index[i];
      ComparisonOrders(items, after, input, number, index[i]);
    }
    InsertSorted(after, rest, q, number);
  }

  lemma AppendSorted(items: seq<string>, index: seq<int>, input: string, p: nat)
    requires Permutation(index, |items|) && Sorted(items, index) && p <= |index|
    requires forall k :: 0 <= k < p ==> Comparison(items, input, |items|, index[k]) > 0
    requires forall k :: p <= k < |index| ==> Comparison(items, input, |items|, index[k]) < 0
    ensures var r := Insert(index, p, |items|);
      InRange(r, |items| + 1) && Sorted(items + [input], r)
  {
    var after, n := items + [input], |items|;
    assert InRange(index, n + 1) && Sorted(after, index);
    forall k | 0 <= k < |index|
      ensures k < p ==> Before(after, index[k], n)
      ensures p <= k ==> Before(after, n, index[k])
    {
      ComparisonOrders(items, after, input, n, index[k]);
    }
    InsertSorted(after, index, p, n);
  }

  /** Where a search for an item number ends, found or not, everything else is on its side. */
  lemma SidesOfKey(items: seq<string>, index: seq<int>, o: nat, number: nat, input: string, r: int)
    requires Permutation(index, |items|) && Sorted(items, index) && o < |index| && index[o] == number
    requires r >= 0 ==> r < |index| && Comparison(items, input, number, index[r]) == 0
    requires r < 0 ==> -r - 1 <= |index|
    requires forall k :: 0 <= k < -r - 1 ==> Comparison(items, input, number, index[k]) > 0
    requires r < 0 ==> forall k :: -r - 1 <= k < |index| ==> Comparison(items, input, number, index[k]) < 0
    ensures var p := if r >= 0 then r else -r - 1;
      (forall k :: 0 <= k < p && k != o ==> Comparison(items, input, number, index[k]) > 0) &&
      (forall k :: p <= k < |index| && k != o ==> Comparison(items, input, number, index[k]) < 0)
  {
    if r >= 0 {
      assert index[r] == number && r == o;
      forall k | 0 <= k < |index| && k != o
        ensures k < r ==> Comparison(items, input, number, index[k]) > 0
        ensures k > r ==> Comparison(items, input, number, index[k]) < 0
      {
        if k < r {
          Descends(items, input, number, index[k], index[r]);
        } else {
          Descends(items, input, number, index[r], index[k]);
        }
      }
    }
  }

  /** A search for a new item number finds nothing. */
  lemma NewKeyDiffers(items: seq<string>, index: seq<int>, input: string)
    requires InRange(index, |items|)
    ensures forall k :: 0 <= k < |index| ==> Comparison(items, input, |items|, index[k]) != 0
  {
  }

  lemma NoneAtAll(number: int)
    ensures CountFrom([], number) == 0
  {
  }

  lemma RenumberedShape(before: seq<int>, after: seq<int>, n: nat, number: int)
    requires |before| == |after| && n <= |before|
    requires forall k :: 0 <= k < n ==> before[..n][k] < number && after[k] == before[k]
    requires forall k :: n <= k < |after| ==> after[k] == if before[k] >= number then before[k] - 1 else before[k]
    ensures after == Renumbered(before, number)
  {
    assert forall k :: 0 <= k < n ==> before[..n][k] == before[k];
  }

  /** The first loop of $delitems after i turns: the items listed so far are free, and not all of them are. */
  ghost predicate Freeing(items: seq<string>, numbers: seq<int>, i: nat, slots: seq<Slot>, deleted: nat) {
    i <= |numbers| && slots == Holes(items, numbers[..i]) && deleted == CountFreed(slots) < |items| &&
    (deleted > 0 <==> exists k :: 0 <= k < i && 0 <= numbers[k] < |items|)
  }

  lemma FreeingStarts(items: seq<string>, numbers: seq<int>)
    requires items != []
    ensures Freeing(items, numbers, 0, Holes(items, []), 0)
  {
    NoneFreed(items);
    assert numbers[..0] == [];
  }

  /** A number that is out of range or has been listed before. */
  lemma FreeingSkips(items: seq<string>, numbers: seq<int>, i: nat, slots: seq<Slot>, deleted: nat)
    requires Freeing(items, numbers, i, slots, deleted) && i < |numbers|
    requires |slots| == |items| && (0 <= numbers[i] < |items| ==> slots[numbers[i]] == Freed)
    ensures Freeing(items, numbers, i + 1, slots, deleted)
  {
    hide CountFreed;
    var number := numbers[i];
    HolesStep(items, numbers, i);
    if 0 <= number < |items| {
      assert slots[number := Freed] == slots;
      assert number in numbers[..i];
    }
  }

  lemma FreeingGoesOn(items: seq<string>, numbers: seq<int>, i: nat, slots: seq<Slot>, deleted: nat)
    requires Freeing(items, numbers, i, slots, deleted) && i < |numbers| && 0 <= numbers[i] < |items| == |slots|
    requires slots[numbers[i]] != Freed
    ensures deleted + 1 < |items| ==> Freeing(items, numbers, i + 1, slots[numbers[i] := Freed], deleted + 1)
    ensures deleted + 1 >= |items| ==> forall v :: 0 <= v < |items| ==> v in numbers
  {
    hide CountFreed;
    HolesStep(items, numbers, i);
    FreeOne(slots, numbers[i]);
    if deleted + 1 >= |items| {
      OneHeld(slots, numbers[i]);
      forall v | 0 <= v < |items|
        ensures v in numbers
      {
        if v != numbers[i] {
          assert slots[v].Freed?;
          assert v in numbers[..i];
        }
      }
    }
  }

  lemma FreeingEnds(items: seq<string>, numbers: seq<int>, slots: seq<Slot>, deleted: nat)
    requires Freeing(items, numbers, |numbers|, slots, deleted)
    ensures slots == Holes(items, numbers) && deleted == CountFreed(slots) < |items|
    ensures exists v :: 0 <= v < |items| && v !in numbers
    ensures deleted > 0 <==> exists k :: 0 <= k < |numbers| && 0 <= numbers[k] < |items|
  {
    assert numbers[..|numbers|] == numbers;
    if forall v :: 0 <= v < |items| ==> v in numbers { CountAllFreed(slots); }
  }

  lemma NotThere(items: seq<string>, index: seq<int>, input: string)
    requires Permutation(index, |items|)
    requires forall k :: 0 <= k < |index| ==> Comparison(items, input, -1, index[k]) != 0
    ensures input !in items
  {
    forall y | 0 <= y < |items|
      ensures items[y] != input
    {
      assert y in index;
      var k :| 0 <= k < |index| && index[k] == y;
      assert Comparison(items, input, -1, index[k]) != 0;
    }
  }

  lemma FirstOfEqual(items: seq<string>, index: seq<int>, input: string, r: nat)
    requires InRange(index, |items|) && Sorted(items, index) && r < |index| && items[index[r]] == input
    requires r > 0 ==> items[index[r - 1]] != input
    ensures forall k :: 0 <= k < r ==> Less(items[index[k]], input)
  {
    forall k | 0 <= k < r
      ensures Less(items[index[k]], input)
    {
      assert Before(items, index[r - 1], index[r]);
      if k < r - 1 && Before(items, index[k], index[r - 1]) && Less(items[index[k]], items[index[r - 1]]) {
        LessTransitive(items[index[k]], items[index[r - 1]], input);
      }
    }
  }

  lemma LastDrops(index: seq<int>, o: nat)
    requires o < |index|
    ensures Insert(Remove(index, o), |index| - 1, index[o])[..|index| - 1] == Remove(index, o)
  {
  }

  /** Renumbering, moving the place to the end and dropping it leave the index of the shorter items. */
  lemma RemovedIndex(items: seq<string>, index: seq<int>, number: nat, o: nat, unsorted: bool)
    requires Permutation(index, |items|) && |index| == |items| && o < |index| && index[o] == number
    requires unsorted || Sorted(items, index)
    ensures number < |items|
    ensures var r := Insert(Remove(Renumbered(index, number), o), |index| - 1, Renumbered(index, number)[o])[..|index| - 1];
      Permutation(r, |items| - 1) && (unsorted || Sorted(Remove(items, number), r))
  {
    LastDrops(Renumbered(index, number), o);
    RenumberedPermutation(index, o, number);
    if !unsorted { RenumberedSorted(items, index, o, number); }
  }

  lemma CountStep(index: seq<int>, n: nat, number: int)
    requires n < |index|
    ensures CountFrom(index[..n + 1], number) == CountFrom(index[..n], number) + if index[n] >= number then 1 else 0
  {
    assert index[..n + 1][..n] == index[..n];
  }

  lemma MovedShape(before: seq<int>, after: seq<int>, o: nat, t: nat)
    requires o < |before| == |after| && t < |after| && after[t] == before[o]
    requires forall k {:trigger after[k]} :: o <= k < t ==> after[k] == before[k + 1]
    requires forall k {:trigger after[k]} :: t < k <= o ==> after[k] == before[k - 1]
    requires forall k {:trigger after[k]} :: 0 <= k < |after| && ((k < o && k < t) || (k > o && k > t)) ==> after[k] == before[k]
    ensures after == Insert(Remove(before, o), t, before[o])
  {
  }

  /** A search for an item that is there ends at its place. */
  lemma KeyIsFound(items: seq<string>, index: seq<int>, number: nat, r: int)
    requires Permutation(index, |items|) && number < |items|
    requires r >= 0 ==> r < |index| && Comparison(items, items[number], number, index[r]) == 0
    requires r < 0 ==> -r - 1 <= |index|
    requires forall k :: 0 <= k < -r - 1 ==> Comparison(items, items[number], number, index[k]) > 0
    requires r < 0 ==> forall k :: -r - 1 <= k < |index| ==> Comparison(items, items[number], number, index[k]) < 0
    ensures r >= 0 && index[r] == number
  {
    assert number in index;
    var k :| 0 <= k < |index| && index[k] == number;
    assert Comparison(items, items[number], number, index[k]) == 0;
  }

  class IndexedArray {
    var item: seq<string>
    var index: seq<int>
    var size: nat
    var unsorted: bool

    ghost predicate Valid()
      reads this
    {
      size > 0 && size == |item| && Permutation(index, size) && (unsorted || Sorted(item, index))
    }

    /** A new array has its item zero. */
    constructor (input: string)
      ensures Valid() && item == [input]
    {
      item, index, size, unsorted := [input], [0], 1, true;
    }

    /** SORT_INDICES, with some sort in the place of qsort. */
    method SortIndices()
      requires Valid()
      modifies `index, `unsorted
      ensures Valid() && !unsorted && (!old(unsorted) ==> index == old(index))
    {
      if unsorted {
        SortIndexSorts(item, index);
        index := SortIndex(item, index);
        unsorted := false;
      }
    }

    /** find_item: a place of the string, or the complement of the place where it would go. */
    method FindItem(find: string, number: int) returns (r: int)
      requires Valid()
      modifies `index, `unsorted
      ensures Valid() && !unsorted && (!old(unsorted) ==> index == old(index))
      ensures r >= 0 ==> r < size && Comparison(item, find, number, index[r]) == 0
      ensures r < 0 ==> -r - 1 <= size
      ensures forall k :: 0 <= k < -r - 1 ==> Comparison(item, find, number, index[k]) > 0
      ensures r < 0 ==> forall k :: -r - 1 <= k < size ==> Comparison(item, find, number, index[k]) < 0
    {
      var top, bottom := size - 1, 0;
      SortIndices();
      while top >= bottom
        invariant Valid() && !unsorted && (!old(unsorted) ==> index == old(index))
        invariant 0 <= bottom <= top + 1 <= size
        invariant forall k :: 0 <= k < bottom ==> Comparison(item, find, number, index[k]) > 0
        invariant forall k :: top < k < size ==> Comparison(item, find, number, index[k]) < 0
        decreases top - bottom
      {
        var key := (top + bottom) / 2;
        var cmp := StrCmp(find, item[index[key]]);
        if cmp == 0 {
          cmp := if number < 0 then cmp else number - index[key];
        }
        if cmp == 0 {
          return key;
        }
        forall k | 0 <= k < size && k != key
          ensures k < key && cmp > 0 ==> Comparison(item, find, number, index[k]) > 0
          ensures k > key && cmp < 0 ==> Comparison(item, find, number, index[k]) < 0
        {
          if k < key {
            Descends(item, find, number, index[k], index[key]);
          } else {
            Descends(item, find, number, index[key], index[k]);
          }
        }
        if cmp < 0 {
          top := key - 1;
        } else {
          bottom := key + 1;
        }
      }
      return -bottom - 1;
    }

    /** insert_index: the entries from newIndex on make room for the next item number. */
    method InsertIndex(newIndex: nat)
      requires size > 0 && |index| == size && newIndex <= size
      modifies `index, `size
      ensures index == Insert(old(index), newIndex, old(size)) && size == old(size) + 1
    {
      ghost var before := index;
      index := index + [0];
      var cnt := size;
      while cnt > newIndex
        invariant newIndex <= cnt <= size && |index| == size + 1 && size == old(size)
        invariant forall k :: 0 <= k < cnt ==> index[k] == before[k]
        invariant forall k {:trigger index[k]} :: cnt < k <= size ==> index[k] == before[k - 1]
      {
        index := index[cnt := index[cnt - 1]];
        cnt := cnt - 1;
      }
      index := index[newIndex := size];
      size := size + 1;
      assert index == Insert(before, newIndex, old(size));
    }

    /** move_index: the entry at oldindex goes before the one that was at newindex. */
    method MoveIndex(oldindex: nat, newindex: nat)
      requires oldindex < |index| && newindex <= |index|
      modifies `index
      ensures var p := if newindex > oldindex then newindex - 1 else newindex;
        index == Insert(Remove(old(index), oldindex), p, old(index)[oldindex])
    {
      ghost var before := index;
      var at := oldindex;
      var target := if newindex > oldindex then newindex - 1 else newindex;
      if target == at {
        MovedShape(before, index, oldindex, target);
        return;
      }
      var temp := index[at];
      if at < target {
        while at < target
          invariant oldindex <= at <= target && |index| == |before|
          invariant forall k {:trigger index[k]} :: oldindex <= k < at ==> index[k] == before[k + 1]
          invariant forall k {:trigger index[k]} :: 0 <= k < |before| && !(oldindex <= k < at) ==> index[k] == before[k]
        {
          index := index[at := index[at + 1]];
          at := at + 1;
        }
      } else {
        while at > target
          invariant target <= at <= oldindex && |index| == |before|
          invariant forall k {:trigger index[k]} :: at < k <= oldindex ==> index[k] == before[k - 1]
          invariant forall k {:trigger index[k]} :: 0 <= k < |before| && !(at < k <= oldindex) ==> index[k] == before[k]
        {
          index := index[at := index[at - 1]];
          at := at - 1;
        }
      }
      index := index[target := temp];
      MovedShape(before, index, oldindex, target);
    }

    function CompareIndices(x: int, y: int): int
      requires 0 <= x < |item| && 0 <= y < |item|
      reads this
    {
      var c := StrCmp(item[x], item[y]);
      if c != 0 then c else x - y
    }

    /** find_index: the place of an item number, found by its string in a long array. */
    method FindIndex(number: nat) returns (r: nat)
      requires Valid() && number < size
      modifies `index, `unsorted
      ensures Valid() && (!old(unsorted) ==> index == old(index) && !unsorted)
      ensures r < size && index[r] == number
    {
      var srch: int := 0;
      if size >= ARRAY_THRESHOLD {
        srch := FindItem(item[number], number);
        KeyIsFound(item, index, number, srch);
        ghost var found := srch;
        while srch >= 0 && CompareIndices(index[srch], number) == 0
          invariant Valid() && (!old(unsorted) ==> index == old(index) && !unsorted)
          invariant found - 1 <= srch <= found < size && index[found] == number
          decreases srch
        {
          srch := srch - 1;
        }
        srch := srch + 1;
      }
      assert number in index;
      while index[srch] != number
        invariant 0 <= srch < size && Valid() && (!old(unsorted) ==> index == old(index) && !unsorted)
        invariant exists k :: srch <= k < size && index[k] == number
        decreases size - srch
      {
        srch := srch + 1;
      }
      return srch;
    }

    // ----- the operations -----

    /** set_item on an array that is there, from $setitem (0) or $usetitem (1). */
    method SetItem(number: nat, input: string, lazy: bool) returns (result: int)
      requires Valid()
      modifies this
      ensures Valid()
      ensures number < old(size) ==> result == 0 && item == old(item)[number := input]
      ensures number == old(size) ==> result == 2 && item == old(item) + [input]
      ensures number > old(size) ==> result == -2 && item == old(item) && index == old(index)
      ensures unsorted == (old(unsorted) || (lazy && number <= old(size)))
    {
      result := -2;
      if number < size {
        if lazy || unsorted {
          unsorted := true;
        } else {
          var oldindex := FindIndex(number);
          var found := FindItem(input, number);
          SidesOfKey(item, index, oldindex, number, input, found);
          var idx := if found >= 0 then found else -found - 1;
          UpdateSorted(item, index, oldindex, number, input, idx);
          MovePermutation(index, oldindex, if idx > oldindex then idx - 1 else idx);
          MoveIndex(oldindex, idx);
        }
        item := item[number := input];
        result := 0;
      } else if number == size {
        var idx: nat;
        if lazy || unsorted {
          unsorted := true;
          idx := number;
        } else {
          var found := FindItem(input, number);
          NewKeyDiffers(item, index, input);
          var place: int := if found >= 0 then found else -found - 1;
          idx := place;
          AppendSorted(item, index, input, idx);
        }
        InsertPermutation(index, idx);
        item := item + [input];
        InsertIndex(idx);
        result := 2;
      }
    }

    /** The loop of $delitem that renumbers; it may stop once size - number entries have been met. */
    method Renumber(number: nat)
      requires Valid() && number < size
      modifies `index
      ensures index == Renumbered(old(index), number)
    {
      ghost var before := index;
      CountInPermutation(before, size, number);
      hide CountFrom;
      hide Permutation;
      hide Sorted;
      assert before[..size] == before;
      var more := size - number;
      var cnt := size - 1;
      while cnt >= 0 && more > 0
        invariant -1 <= cnt < size && |index| == size == |before| && more == CountFrom(before[..cnt + 1], number)
        invariant forall k :: 0 <= k <= cnt ==> index[k] == before[k]
        invariant forall k :: cnt < k < size ==> index[k] == if before[k] >= number then before[k] - 1 else before[k]
        decreases cnt
      {
        CountStep(before, cnt, number);
        if index[cnt] >= number {
          more := more - 1;
          index := index[cnt := index[cnt] - 1];
        }
        cnt := cnt - 1;
      }
      NoneAtAll(number);
      if more == 0 { NoneLeft(before[..cnt + 1], number); }
      RenumberedShape(before, index, cnt + 1, number);
    }

    /** The items above one that goes move down. */
    method DropItem(number: nat)
      requires number <= size && |item| == size + 1
      modifies `item
      ensures item == Remove(old(item), number)
    {
      ghost var before := item;
      var cnt := number;
      while cnt < size
        invariant number <= cnt <= size && |item| == size + 1
        invariant forall k :: 0 <= k < number ==> item[k] == before[k]
        invariant forall k {:trigger item[k]} :: number <= k < cnt ==> item[k] == before[k + 1]
        invariant forall k :: cnt <= k < |item| ==> item[k] == before[k]
      {
        item := item[cnt := item[cnt + 1]];
        cnt := cnt + 1;
      }
      item := item[..size];
      assert item == Remove(before, number);
    }

    /** The item goes and so does its place in the index. */
    method RemoveItem(number: nat, oldindex: nat)
      requires Valid() && size > 1 && oldindex < size && index[oldindex] == number < size
      modifies `item, `index, `size
      ensures Valid() && item == Remove(old(item), number)
    {
      RemovedIndex(item, index, number, oldindex, unsorted);
      hide Permutation;
      hide Sorted;
      hide Renumbered;
      Renumber(number);
      MoveIndex(oldindex, size);
      size := size - 1;
      DropItem(number);
      index := index[..size];
    }

    /** One item of $delitem; the last one of an array takes the array with it. */
    method DelItem(number: int) returns (found: int, gone: bool)
      requires Valid()
      modifies this
      ensures found == if 0 <= number < old(size) then 0 else -2
      ensures gone <==> number == 0 && old(size) == 1
      ensures Valid() && (unsorted ==> old(unsorted))
      ensures item == if found == 0 && !gone then Remove(old(item), number) else old(item)
    {
      found, gone := -2, false;
      if 0 <= number < size {
        found := 0;
        if size == 1 {
          gone := true;
        } else {
          var oldindex: nat := number;
          if number != index[number] {
            oldindex := FindIndex(number);
          }
          RemoveItem(number, oldindex);
        }
      }
    }

    /** The first loop of $delitems: each listed item is freed, until the last one goes too. */
    method FreeItems(numbers: seq<int>) returns (slots: seq<Slot>, deleted: nat, gone: bool)
      requires Valid()
      ensures gone <==> forall v :: 0 <= v < size ==> v in numbers
      ensures !gone ==> slots == Holes(item, numbers) && deleted == CountFreed(slots) < size
      ensures deleted > 0 <==> exists k :: 0 <= k < |numbers| && 0 <= numbers[k] < size
    {
      assert size == |item|;
      hide Permutation;
      hide Sorted;
      hide CountFreed;
      hide Freeing;
      FreeingStarts(item, numbers);
      slots, deleted, gone := Holes(item, []), 0, false;
      var i := 0;
      while i < |numbers|
        invariant 0 <= i <= |numbers| && |slots| == size && Freeing(item, numbers, i, slots, deleted)
      {
        var number := numbers[i];
        if 0 <= number < size && slots[number] != Freed {
          FreeingGoesOn(item, numbers, i, slots, deleted);
          deleted := deleted + 1;
          if deleted >= size {
            gone := true;
            return;
          }
          slots := slots[number := Freed];
        } else {
          FreeingSkips(item, numbers, i, slots, deleted);
        }
        i := i + 1;
      }
      FreeingEnds(item, numbers, slots, deleted);
    }

    /** The second loop of $delitems: what is left moves to the front. */
    method CloseUp(slots: seq<Slot>) returns (kept: seq<string>)
      ensures kept == Survivors(slots)
    {
      var left, new', cnt := slots, 0, 0;
      while cnt < |slots|
        invariant 0 <= new' <= cnt <= |slots| == |left| && new' == |Survivors(slots[..cnt])|
        invariant forall k :: cnt <= k < |slots| ==> left[k] == slots[k]
        invariant forall k :: 0 <= k < new' ==> left[k] == Held(Survivors(slots[..cnt])[k])
      {
        SurvivorStep(slots, cnt);
        if left[cnt] != Freed {
          left := left[new' := left[cnt]];
          new' := new' + 1;
        }
        cnt := cnt + 1;
      }
      assert slots[..cnt] == slots;
      kept := seq(new', k requires 0 <= k < new' && left[k].Held? => left[k].text);
    }

    /** $delitems: the listed items go, what is left closes up and is left unsorted. */
    method DelItems(numbers: seq<int>) returns (found: int, gone: bool)
      requires Valid()
      modifies this
      ensures Valid()
      ensures found == if exists k :: 0 <= k < |numbers| && 0 <= numbers[k] < old(size) then 0 else -2
      ensures gone <==> forall v :: 0 <= v < old(size) ==> v in numbers
      ensures item == if gone || found != 0 then old(item) else Survivors(Holes(old(item), numbers))
      ensures unsorted == (old(unsorted) || (found == 0 && !gone))
    {
      var slots, deleted;
      slots, deleted, gone := FreeItems(numbers);
      found := if deleted > 0 then 0 else -2;
      if deleted > 0 && !gone {
        item := CloseUp(slots);
        unsorted := true;
        size := size - deleted;
        index := Identity(size);
        IdentityPermutation(size);
      }
    }

    /** $ifindfirst: the first place in the index that has the string. */
    method IFindFirst(input: string) returns (r: int)
      requires Valid()
      modifies `index, `unsorted
      ensures Valid() && (input != "" ==> !unsorted)
      ensures input == "" ==> r == -1 && index == old(index)
      ensures input != "" ==> (r == -2 <==> input !in item)
      ensures input != "" && r != -2 ==> 0 <= r < size && item[index[r]] == input
      ensures input != "" && r != -2 ==> forall k :: 0 <= k < r ==> Less(item[index[k]], input)
    {
      if input == "" {
        return -1;
      }
      r := FindItem(input, -1);
      if r < 0 {
        NotThere(item, index, input);
        r := -2;
      } else {
        ghost var found := r;
        while r >= 0 && item[index[r]] == input
          invariant -1 <= r <= found < size && Valid() && !unsorted
          invariant forall k :: r < k <= found ==> item[index[k]] == input
          invariant r == found ==> item[index[r]] == input
          decreases r
        {
          r := r - 1;
        }
        r := r + 1;
        FirstOfEqual(item, index, input, r);
      }
    }
  }

  lemma {:induction false} NoneLeft(index: seq<int>, number: int)
    requires CountFrom(index, number) == 0
    ensures forall k :: 0 <= k < |index| ==> index[k] < number
  {
    if index != [] { NoneLeft(index[..|index| - 1], number); }
  }
}
