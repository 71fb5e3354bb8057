/**
  The resizable sorted table of alist.c: two binary searches, insertion and
  removal by shifting, and a capacity that doubles and halves.
 */
module Alists {
  import opened JsonValues
  import opened AlistSpec

  datatype Slot<T> = Empty | Full(entry: Entry<T>)

  /** Division in C: toward zero. */
  function Half(n: int): int {
    if n < 0 then -(-n / 2) else n / 2
  }

  /** The slot at k after start to end have moved dir places. */
  function Shifted<T>(before: seq<Slot<T>>, start: nat, end: int, dir: int, k: nat): Slot<T>
    requires k < |before| && 0 <= start + dir && end + dir < |before| && end < |before|
  {
    if dir > 0 && start <= k < start + dir then Empty
    else if start + dir <= k <= end + dir then before[k - dir]
    else before[k]
  }

  method MoveUp<T>(a: array<Slot<T>>, start: nat, end: int, dir: int)
    requires dir > 0 && start <= end + 1 && end + dir < a.Length && start + dir <= a.Length
    modifies a
    ensures forall k {:trigger a[k]} :: 0 <= k < a.Length ==> a[k] == Shifted(old(a[..]), start, end, dir, k)
  {
    ghost var before := a[..];
    var i := end;
    while i >= start
      invariant start - 1 <= i <= end
      invariant forall k {:trigger a[k]} :: i + dir < k <= end + dir ==> a[k] == before[k - dir]
      invariant forall k {:trigger a[k]} :: 0 <= k < a.Length && !(i + dir < k <= end + dir) ==> a[k] == before[k]
      decreases i - start
    {
      a[i + dir] := a[i];
      i := i - 1;
    }
    i := dir;
    while i > 0
      invariant 0 <= i <= dir
      invariant forall k {:trigger a[k]} :: start + i <= k < start + dir ==> a[k] == Empty
      invariant forall k {:trigger a[k]} :: start + dir <= k <= end + dir ==> a[k] == before[k - dir]
      invariant forall k {:trigger a[k]} :: 0 <= k < start + i && k < start + dir ==> a[k] == before[k]
      invariant forall k {:trigger a[k]} :: start + dir <= k && end + dir < k < a.Length ==> a[k] == before[k]
    {
      a[start + i - 1] := Empty;
      i := i - 1;
    }
  }

  method MoveDown<T>(a: array<Slot<T>>, start: nat, end: int, dir: int)
    requires dir < 0 <= start + dir && start <= end + 1 && end < a.Length
    modifies a
    ensures forall k {:trigger a[k]} :: 0 <= k < a.Length ==> a[k] == Shifted(old(a[..]), start, end, dir, k)
  {
    ghost var before := a[..];
    var i := start;
    while i <= end
      invariant start <= i <= end + 1
      invariant forall k {:trigger a[k]} :: start + dir <= k < i + dir ==> a[k] == before[k - dir]
      invariant forall k {:trigger a[k]} :: 0 <= k < a.Length && !(start + dir <= k < i + dir) ==> a[k] == before[k]
      decreases end - i
    {
      a[i + dir] := a[i];
      i := i + 1;
    }
  }

  class Alist<T> {
    var list: array<Slot<T>>
    var max: nat
    var total: nat
    ghost var contents: seq<Entry<T>>
    /** The operations so far, and the entries that resizing has moved in them. */
    ghost var ops: nat
    ghost var moved: nat

    ghost predicate Filled()
      reads this, list
    {
      max == |contents| && max <= list.Length && forall i :: 0 <= i < max ==> list[i] == Full(contents[i])
    }

    ghost predicate Valid()
      reads this, list
    {
      Filled() && list.Length == total && CapacityOk(max, total) && Ordered(contents) && Hashed(contents) &&
      moved + Potential(max, total) <= 4 * ops
    }

    constructor ()
      ensures Valid() && contents == [] && fresh(list) && ops == 0
    {
      list := new Slot<T>[0];
      max, total := 0, 0;
      contents, ops, moved := [], 0, 0;
    }

    // ----- searching -----

    /** One comparison of a search. */
    method Compare(name: string, hash: nat, mask: nat, pos: nat) returns (c: int)
      requires Filled() && Hashed(contents) && pos < max && IsName(name) && hash == Hash(name) && mask == Mask(name)
      ensures Sign(c) == Sign(Compared(contents, name, pos))
    {
      var entry := list[pos].entry;
      c := Masked(hash, mask) - Masked(entry.hash, mask);
      if c == 0 {
        c := PrefixCompare(name, entry.name);
      }
      PrefilterAgrees(name, entry.name);
      SignOfPrefix(name, entry.name);
    }

    /** The first search: the start of the block, or the place where the name could go. */
    method FindStart(name: string, hash: nat, mask: nat) returns (c: int, pos: int, tospot: int)
      requires Filled() && Ordered(contents) && Hashed(contents) && max > 0
      requires IsName(name) && hash == Hash(name) && mask == Mask(name)
      ensures c == 0 ==> 0 <= pos <= tospot < max && Compared(contents, name, pos) == 0
      ensures var loc := if c > 0 then pos + 1 else pos;
        0 <= loc <= max && (forall i :: 0 <= i < loc ==> Compared(contents, name, i) > 0) &&
        (c != 0 ==> forall i :: loc <= i < max ==> Compared(contents, name, i) < 0)
      ensures c == 0 ==> forall i :: tospot < i < max ==> Compared(contents, name, i) < 0
    {
      var low, high := 0, max - 1;
      tospot, pos, c := high, 0, 0;
      while high >= low
        invariant 0 <= low <= high + 1 && high <= tospot < max
        invariant forall i :: 0 <= i < low ==> Compared(contents, name, i) > 0
        invariant forall i :: tospot < i < max ==> Compared(contents, name, i) < 0
        invariant high == tospot || (0 <= high && Compared(contents, name, high) == 0)
        invariant c == 0 ==> low <= high
        invariant c > 0 ==> pos + 1 == low
        invariant c < 0 ==> pos == high + 1
        decreases high - low
      {
        pos := Half(high - low) + low;
        c := Compare(name, hash, mask, pos);
        if c == 0 {
          if high == pos {
            break;
          }
          high := pos;
        } else if c < 0 {
          forall i | pos <= i < max ensures Compared(contents, name, i) < 0 { Descends(contents, name, pos, i); }
          high := pos - 1;
          tospot := high;
        } else {
          forall i | 0 <= i <= pos ensures Compared(contents, name, i) > 0 { Descends(contents, name, i, pos); }
          low := pos + 1;
        }
      }
    }

    /** The second search: the end of the block that starts at `start`. */
    method FindEnd(name: string, hash: nat, mask: nat, start: nat, tospot: nat) returns (pos: int)
      requires Filled() && Ordered(contents) && Hashed(contents) && start <= tospot < max
      requires IsName(name) && hash == Hash(name) && mask == Mask(name)
      requires Compared(contents, name, start) == 0
      requires forall i :: tospot < i < max ==> Compared(contents, name, i) < 0
      ensures start <= pos < max && Compared(contents, name, pos) == 0
      ensures forall i :: pos < i < max ==> Compared(contents, name, i) < 0
    {
      var low: int, high: int := start, tospot;
      pos := start;
      while high >= low
        invariant start <= low <= high < max && Compared(contents, name, low) == 0
        invariant forall i :: high < i < max ==> Compared(contents, name, i) < 0
        decreases high - low
      {
        pos := Half(low - high) + high;
        Descends(contents, name, low, pos);
        var c := Compare(name, hash, mask, pos);
        if c == 0 {
          if low == pos {
            break;
          }
          low := pos;
        } else if c < 0 {
          forall i | pos <= i < max ensures Compared(contents, name, i) < 0 { Descends(contents, name, pos, i); }
          high := pos - 1;
        } else {
          low := pos + 1;
        }
      }
    }

    /** find_alist_item: the data of the first match, the count and the place. */
    method FindAlistItem(name: string) returns (data: Option<T>, count: int, loc: nat)
      requires Filled() && Ordered(contents) && Hashed(contents) && IsName(name)
      ensures Found(contents, name, count, loc)
      ensures data == if count == 0 then None else Some(contents[loc].data)
    {
      var hash, mask := Hash(name), Mask(name);
      if max == 0 {
        return None, 0, 0;
      }
      var c, pos, tospot := FindStart(name, hash, mask);
      if c != 0 {
        loc := if c > 0 then pos + 1 else pos;
        FoundFromSigns(contents, name, loc, loc);
        return None, 0, loc;
      }
      var last := FindEnd(name, hash, mask, pos, tospot);
      forall i | pos <= i <= last ensures Compared(contents, name, i) == 0 {
        Descends(contents, name, pos, i);
        Descends(contents, name, i, last);
      }
      FoundFromSigns(contents, name, pos, last + 1);
      count := 1 + last - pos;
      if |list[pos].entry.name| == |name| {
        count := -count;
      }
      return Some(list[pos].entry.data), count, pos;
    }

    // ----- shifting and resizing -----

    /**
      move_alist_items; moving down, the loop that is to clear the slots behind
      starts past `end` and does nothing.
     */
    method MoveAlistItems(start: nat, end: int, dir: int)
      requires dir != 0 && 0 <= start + dir && start <= end + 1
      requires end < list.Length && end + dir < list.Length && start + dir <= list.Length
      modifies list
      ensures forall k {:trigger list[k]} :: 0 <= k < list.Length ==> list[k] == Shifted(old(list[..]), start, end, dir, k)
    {
      if dir > 0 {
        MoveUp(list, start, end, dir);
      } else {
        MoveDown(list, start, end, dir);
      }
    }

    /** check_alist_size: double, halve or leave alone. */
    method CheckAlistSize()
      requires Filled() && list.Length == total && max <= NewCapacity(max, total)
      modifies this`list, this`total, this`moved
      ensures total == NewCapacity(max, old(total)) && list.Length == total
      ensures Filled() && (list == old(list) || fresh(list))
      ensures moved == old(moved) + if total == old(total) then 0 else max
    {
      if total == 0 {
        total := 6;
      } else if max == total - 1 {
        total := total * 2;
      } else if total > 6 && max * 3 < total {
        total := total / 2;
      } else {
        return;
      }
      list := new Slot<T>[total](i requires 0 <= i reads this, list =>
        if i < max && i < list.Length then list[i] else Empty);
      moved := moved + max;
    }

    // ----- the operations -----

    /** The end of add_to_alist: the entries from the place on make room, or one is replaced. */
    method PlaceEntry(e: Entry<T>, location: nat, count: int)
      requires Filled() && list.Length == total && max + 2 <= total
      requires location <= max && (count < 0 ==> location < max)
      modifies this`max, this`contents, list
      ensures Filled() && contents == PutAt(old(contents), e, location, count < 0) && max == |contents|
    {
      if max > 0 {
        if count < 0 {
          max := max - 1;
        } else {
          MoveAlistItems(location, max, 1);
        }
      }
      list[location] := Full(e);
      max := max + 1;
      contents := PutAt(contents, e, location, count < 0);
    }

    /** add_to_alist: the entry that was displaced, if any. */
    method AddToAlist(name: string, item: T) returns (displaced: Option<T>)
      requires Valid() && IsName(name)
      modifies this, list
      ensures Valid() && (list == old(list) || fresh(list))
      ensures AsMap(contents) == old(AsMap(contents))[name := item]
      ensures displaced == if name in old(AsMap(contents)) then Some(old(AsMap(contents))[name]) else None
      ensures ops == old(ops) + 1
    {
      hide Ordered;
      hide Hashed;
      hide Potential;
      hide CapacityOk;
      hide NewCapacity;
      hide AsMap;
      hide Found;
      var e := Entry(name, Hash(name), item);
      ghost var es := contents;
      if max > 0 { CapacityGrows(max, total, 0); }
      CapacityGrows(max, total, 1);
      CheckAlistSize();
      var data, count, location := FindAlistItem(name);
      displaced := if count < 0 then data else None;
      PutOrdered(es, e, count, location);
      PutMap(es, e, count, location);
      PlaceEntry(e, location, count);
      ops := ops + 1;
    }

    /** alist_pop: the data of the entry that was taken out. */
    method AlistPop(which: int) returns (data: Option<T>)
      requires Valid()
      modifies this, list
      ensures Valid() && (list == old(list) || fresh(list)) && ops == old(ops) + 1
      ensures 0 <= which < |old(contents)| ==>
        contents == DropAt(old(contents), which) && data == Some(old(contents)[which].data)
      ensures !(0 <= which < |old(contents)|) ==> contents == old(contents) && data == None
    {
      ops := ops + 1;
      if which < 0 || which >= max {
        return None;
      }
      hide Ordered;
      hide Hashed;
      hide Potential;
      hide CapacityOk;
      hide NewCapacity;
      data := Some(list[which].entry.data);
      DropOrdered(contents, which);
      CapacityShrinks(max - 1, total);
      TakeEntry(which);
      CheckAlistSize();
    }

    method TakeEntry(which: nat)
      requires Filled() && max < list.Length && which < max
      modifies this`max, this`contents, list
      ensures Filled() && contents == DropAt(old(contents), which) && max == old(max) - 1
    {
      MoveAlistItems(which + 1, max, -1);
      max := max - 1;
      contents := DropAt(contents, which);
    }

    /** remove_from_alist: the entry that was removed, if there was one of exactly that name. */
    method RemoveFromAlist(name: string) returns (removed: Option<T>)
      requires Valid() && IsName(name)
      modifies this, list
      ensures Valid() && (list == old(list) || fresh(list))
      ensures AsMap(contents) == old(AsMap(contents)) - {name}
      ensures removed == if name in old(AsMap(contents)) then Some(old(AsMap(contents))[name]) else None
      ensures ops <= old(ops) + 1
    {
      hide AsMap;
      ghost var es := contents;
      var data, count, location := FindAlistItem(name);
      ExactIsFirst(es, name, count, location);
      Removal(es, name, count, location);
      if count >= 0 {
        return None;
      }
      removed := AlistPop(location);
    }

    /** alist_lookup: a removal, or only a search. */
    method AlistLookup(name: string, rem: bool) returns (data: Option<T>)
      requires Valid() && IsName(name)
      modifies this, list
      ensures Valid() && (list == old(list) || fresh(list))
      ensures rem ==> AsMap(contents) == old(AsMap(contents)) - {name}
      ensures rem ==> data == if name in old(AsMap(contents)) then Some(old(AsMap(contents))[name]) else None
      ensures !rem ==> contents == old(contents) && FirstMatch(contents, name, data)
    {
      if rem {
        data := RemoveFromAlist(name);
      } else {
        var count, location;
        data, count, location := FindAlistItem(name);
        FirstMatchFound(contents, name, count, location, data);
      }
    }

    method GetAlistItem(location: int) returns (data: Option<T>)
      requires Filled() && location < max
      ensures data == if location < 0 then None else Some(contents[location].data)
    {
      if location < 0 || location > max {
        return None;
      }
      return Some(list[location].entry.data);
    }
  }
}
