/**
  Runs of the operations on one array: what the items become, and that it does
  not matter which of the updates were sorted in at once.
 */
module ArrayRuns {
  import opened ArraySpec
  import opened IndexedArrays

  /** $setitem and $usetitem (lazy), $delitem, $delitems. */
  datatype Op =
    | Set(number: nat, input: string, lazy: bool)
    | Delete(which: int)
    | DeleteMany(numbers: seq<int>)

  /** The items after an operation; no items, no array. */
  function Apply(items: seq<string>, op: Op): seq<string> {
    match op
    case Set(number, input, _) =>
      if number < |items| then items[number := input]
      else if number == |items| then items + [input]
      else items
    case Delete(which) => if 0 <= which < |items| then Remove(items, which) else items
    case DeleteMany(numbers) => Survivors(Holes(items, numbers))
  }

  function ApplyAll(items: seq<string>, ops: seq<Op>): seq<string>
    decreases |ops|
  {
    if items == [] || ops == [] then items else ApplyAll(Apply(items, ops[0]), ops[1..])
  }

  function Eagerly(op: Op): Op {
    if op.Set? then op.(lazy := false) else op
  }

  function AllEagerly(ops: seq<Op>): (r: seq<Op>)
    ensures |r| == |ops|
    ensures forall i :: 0 <= i < |ops| ==> r[i] == Eagerly(ops[i])
  {
    seq(|ops|, i requires 0 <= i < |ops| => Eagerly(ops[i]))
  }

  lemma {:induction false} SameItems(items: seq<string>, ops: seq<Op>)
    ensures ApplyAll(items, AllEagerly(ops)) == ApplyAll(items, ops)
    decreases |ops|
  {
    if items != [] && ops != [] {
      assert AllEagerly(ops)[1..] == AllEagerly(ops[1..]);
      assert AllEagerly(ops)[0] == Eagerly(ops[0]);
      assert Apply(items, Eagerly(ops[0])) == Apply(items, ops[0]);
      SameItems(Apply(items, ops[0]), ops[1..]);
    }
  }

  lemma {:induction false} NothingListed(items: seq<string>, listed: seq<int>)
    requires forall k :: 0 <= k < |items| ==> k !in listed
    ensures Survivors(Holes(items, listed)) == items
  {
    if items != [] {
      var n := |items| - 1;
      NothingListed(items[..n], listed);
      assert Holes(items, listed)[..n] == Holes(items[..n], listed);
      assert items == items[..n] + [items[n]];
    }
  }

  lemma AllOrSome(items: seq<string>, listed: seq<int>)
    requires items != []
    ensures Survivors(Holes(items, listed)) == [] <==> forall v :: 0 <= v < |items| ==> v in listed
  {
    var slots := Holes(items, listed);
    if CountFreed(slots) == |slots| {
      AllFreed(slots);
    }
    if forall v :: 0 <= v < |items| ==> v in listed {
      CountAllFreed(slots);
    }
  }

  /** The operations that leave a sorted index sorted; the others put the sort off. */
  predicate KeepsSorted(op: Op) {
    match op
    case Set(_, _, lazy) => !lazy
    case Delete(_) => true
    case DeleteMany(_) => false
  }

  method Perform(a: IndexedArray, op: Op) returns (gone: bool)
    requires a.Valid()
    modifies a
    ensures a.Valid() && (gone <==> Apply(old(a.item), op) == [])
    ensures !gone ==> a.item == Apply(old(a.item), op)
    ensures KeepsSorted(op) && a.unsorted ==> old(a.unsorted)
  {
    match op {
      case Set(number, input, lazy) =>
        var result := a.SetItem(number, input, lazy);
        gone := false;
      case Delete(which) =>
        var found;
        found, gone := a.DelItem(which);
      case DeleteMany(numbers) =>
        AllOrSome(a.item, numbers);
        if forall k :: 0 <= k < |a.item| ==> k !in numbers { NothingListed(a.item, numbers); }
        var found;
        found, gone := a.DelItems(numbers);
    }
  }

  /** A run, up to the operation that takes the array with it. */
  method Run(a: IndexedArray, ops: seq<Op>) returns (gone: bool)
    requires a.Valid()
    modifies a
    ensures a.Valid() && (gone <==> ApplyAll(old(a.item), ops) == [])
    ensures !gone ==> a.item == ApplyAll(old(a.item), ops)
    ensures (forall i :: 0 <= i < |ops| ==> KeepsSorted(ops[i])) && a.unsorted ==> old(a.unsorted)
  {
    gone := false;
    var i := 0;
    assert ops[0..] == ops;
    while i < |ops| && !gone
      invariant 0 <= i <= |ops| && a.Valid()
      invariant !gone ==> ApplyAll(a.item, ops[i..]) == ApplyAll(old(a.item), ops)
      invariant gone ==> ApplyAll(old(a.item), ops) == []
      invariant (forall k :: 0 <= k < i ==> KeepsSorted(ops[k])) && a.unsorted ==> old(a.unsorted)
      decreases |ops| - i
    {
      assert ops[i..][1..] == ops[i + 1..];
      gone := Perform(a, ops[i]);
      i := i + 1;
    }
  }

  /**
    A run that keeps the index sorted: every update is sorted in at once, and only
    the mass deletions, which always put the sort off, are followed by one.
   */
  method RunSorted(b: IndexedArray, ops: seq<Op>) returns (gone: bool)
    requires b.Valid() && !b.unsorted
    modifies b
    ensures b.Valid() && (gone <==> ApplyAll(old(b.item), ops) == [])
    ensures !gone ==> b.item == ApplyAll(old(b.item), ops) && !b.unsorted
  {
    gone := false;
    var i := 0;
    assert ops[0..] == ops;
    while i < |ops| && !gone
      invariant 0 <= i <= |ops| && b.Valid()
      invariant !gone ==> ApplyAll(b.item, ops[i..]) == ApplyAll(old(b.item), ops) && !b.unsorted
      invariant gone ==> ApplyAll(old(b.item), ops) == []
      decreases |ops| - i
    {
      assert ops[i..][1..] == ops[i + 1..];
      assert Apply(b.item, Eagerly(ops[i])) == Apply(b.item, ops[i]);
      gone := Perform(b, Eagerly(ops[i]));
      if ops[i].DeleteMany? && !gone {
        b.SortIndices();
      }
      i := i + 1;
    }
  }

  /**
    After any mix of sorted and unsorted updates, sorting on demand gives exactly
    the index that inserting, rotating and renumbering in every update have kept.
   */
  method LazyAgreesWithEager(a: IndexedArray, b: IndexedArray, ops: seq<Op>) returns (gone: bool)
    requires a != b && a.Valid() && b.Valid() && a.item == b.item && !b.unsorted
    requires forall i :: 0 <= i < |ops| ==> !ops[i].DeleteMany?
    modifies a, b
    ensures gone <==> ApplyAll(old(a.item), ops) == []
    ensures !gone ==> a.item == b.item == ApplyAll(old(a.item), ops) && a.index == b.index
    ensures !gone ==> a.Valid() && b.Valid() && !a.unsorted && !b.unsorted
  {
    SameItems(a.item, ops);
    gone := Run(a, ops);
    var gone' := Run(b, AllEagerly(ops));
    if !gone {
      a.SortIndices();
      SortedIndexUnique(a.item, a.index, b.index);
    }
  }

  /** The same with mass deletions among the operations. */
  method LazyAgreesWithSorted(a: IndexedArray, b: IndexedArray, ops: seq<Op>) returns (gone: bool)
    requires a != b && a.Valid() && b.Valid() && a.item == b.item && !b.unsorted
    modifies a, b
    ensures gone <==> ApplyAll(old(a.item), ops) == []
    ensures !gone ==> a.item == b.item == ApplyAll(old(a.item), ops) && a.index == b.index
    ensures !gone ==> a.Valid() && b.Valid() && !a.unsorted && !b.unsorted
  {
    gone := Run(a, ops);
    var gone' := RunSorted(b, ops);
    if !gone {
      a.SortIndices();
      SortedIndexUnique(a.item, a.index, b.index);
    }
  }
}
