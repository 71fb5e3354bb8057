/**
  The child lists of cJSON: doubly linked, ending in NULL, with the first
  child's prev at the last one. Every edit keeps that shape and is the edit of
  a sequence.
 */
module ChildList {
  import opened JsonValues

  /** A node; `item` is its name and value, which the list operations never touch. */
  class Node {
    const item: Member
    var next: Node?
    var prev: Node?
    var child: Node?
    ghost var kids: seq<Node>

    constructor (item: Member)
      ensures this.item == item && next == null && prev == null && child == null && kids == []
    {
      this.item := item;
      next, prev, child, kids := null, null, null, [];
    }

    ghost predicate Valid()
      reads this, kids
    {
      this !in kids && Linked(child, kids) && (kids != [] ==> kids[0].prev == kids[|kids| - 1])
    }
  }

  ghost predicate Distinct(ns: seq<Node>) {
    forall i, j :: 0 <= i < j < |ns| ==> ns[i] != ns[j]
  }

  function At(ns: seq<Node>, i: nat): Node? {
    if i < |ns| then ns[i] else null
  }

  ghost predicate Nexts(ns: seq<Node>)
    reads ns
  {
    forall i {:trigger ns[i].next} :: 0 <= i < |ns| ==> ns[i].next == At(ns, i + 1)
  }

  /** Every prev link but the first is the inverse of a next link. */
  ghost predicate Prevs(ns: seq<Node>)
    reads ns
  {
    forall i {:trigger ns[i].prev} :: 0 < i < |ns| ==> ns[i].prev == ns[i - 1]
  }

  /** The nodes of a chain that ends in NULL. */
  ghost predicate Linked(head: Node?, ns: seq<Node>)
    reads ns
  {
    Distinct(ns) && head == At(ns, 0) && Nexts(ns) && Prevs(ns)
  }

  method SuffixObject(prev: Node, item: Node)
    modifies prev`next, item`prev
    ensures prev.next == item && item.prev == prev
  {
    prev.next := item;
    item.prev := prev;
  }

  /** A linked list whose first prev is NULL or one of the children: a whole one, or what a sort has left. */
  ghost predicate Chained(parent: Node)
    reads parent, parent.kids
  {
    parent !in parent.kids && Linked(parent.child, parent.kids) &&
    (parent.kids != [] ==> parent.kids[0].prev == null || parent.kids[0].prev in parent.kids)
  }

  /**
    add_item_to_array. The item goes behind the node the first prev points at, and
    whatever was linked behind that node is cut off; where the first child has no
    prev the item is dropped, and the result is still true. Appending trusts the
    next link of the item.
   */
  method AddItemToArray(parent: Node, item: Node?) returns (ok: bool)
    requires Chained(parent) && item !in parent.kids
    requires item != null && parent.kids != [] ==> item.next == null
    modifies parent`child, parent`kids, parent.kids, item
    ensures ok <==> item != null && item != parent
    ensures Chained(parent) && (old(parent.Valid()) ==> parent.Valid())
    ensures !ok ==> parent.kids == old(parent.kids)
    ensures ok && old(parent.kids) == [] ==> parent.Valid() && parent.kids == [item]
    ensures ok && old(parent.kids) != [] && old(parent.kids[0].prev) == null ==> parent.kids == old(parent.kids)
    ensures ok && old(parent.kids) != [] ==> forall w :: 0 <= w < |old(parent.kids)| && old(parent.kids)[w] == old(parent.kids[0].prev) ==>
      parent.Valid() && parent.kids == old(parent.kids)[..w + 1] + [item]
  {
    if item == null || item == parent {
      return false;
    }
    var child := parent.child;
    if child == null {
      parent.child := item;
      item.prev := item;
      item.next := null;
      parent.kids := parent.kids + [item];
    } else {
      if child.prev != null {
        ghost var w :| 0 <= w < |parent.kids| && parent.kids[w] == child.prev;
        HangBehind(parent, item, w);
      }
    }
    return true;
  }

  /** The links of an addition behind the child at w. */
  method HangBehind(parent: Node, item: Node, ghost w: nat)
    requires Chained(parent) && w < |parent.kids| && parent.kids[0].prev == parent.kids[w]
    requires item !in parent.kids && item != parent && item.next == null
    modifies parent`kids, parent.kids, item
    ensures parent.Valid() && parent.kids == old(parent.kids)[..w + 1] + [item]
  {
    ghost var kids := parent.kids;
    ghost var all := kids[..w + 1] + [item];
    assert forall i :: 0 <= i < |kids| && i != w ==> kids[i] != kids[w];
    assert forall i :: 0 < i < |kids| ==> kids[i] != kids[0];
    assert Distinct(all);
    hide Distinct;
    SuffixObject(parent.child.prev, item);
    parent.child.prev := item;
    assert forall i :: 0 <= i <= w ==> all[i] == kids[i];
    parent.kids := all;
  }

  method GetArrayItem(parent: Node, index: nat) returns (item: Node?)
    requires parent.Valid()
    ensures item == At(parent.kids, index)
  {
    hide Distinct;
    hide Prevs;
    item := parent.child;
    var left := index;
    while item != null && left > 0
      invariant 0 <= left <= index && (item == null || index - left < |parent.kids|) && item == At(parent.kids, index - left)
      decreases left
    {
      left := left - 1;
      item := item.next;
    }
  }

  function Put(kids: seq<Node>, w: nat, item: Node): (r: seq<Node>)
    requires w <= |kids|
    ensures |r| == |kids| + 1
    ensures forall i :: 0 <= i <= |kids| ==> r[i] == if i < w then kids[i] else if i == w then item else kids[i - 1]
  {
    kids[..w] + [item] + kids[w..]
  }

  lemma PutDistinct(kids: seq<Node>, w: nat, item: Node)
    requires w <= |kids| && Distinct(kids) && item !in kids
    ensures Distinct(Put(kids, w, item))
  {
  }

  lemma InsertedNexts(kids: seq<Node>, w: nat, item: Node)
    requires w < |kids| && item.next == kids[w]
    requires forall i {:trigger kids[i].next} :: 0 <= i < |kids| && i + 1 != w ==> kids[i].next == At(kids, i + 1)
    requires w > 0 ==> kids[w - 1].next == item
    ensures Nexts(Put(kids, w, item))
  {
    var r := Put(kids, w, item);
    forall i | 0 <= i < |r|
      ensures r[i].next == At(r, i + 1)
    {
      if i + 1 < w {
        assert r[i] == kids[i] && r[i + 1] == kids[i + 1];
      } else if i > w {
        assert r[i] == kids[i - 1];
      }
    }
  }

  lemma InsertedPrevs(kids: seq<Node>, w: nat, item: Node)
    requires w < |kids| && (w > 0 ==> item.prev == kids[w - 1]) && kids[w].prev == item
    requires forall i {:trigger kids[i].prev} :: 0 < i < |kids| && i != w ==> kids[i].prev == kids[i - 1]
    ensures Prevs(Put(kids, w, item))
  {
    var r := Put(kids, w, item);
    forall i | 0 < i < |r|
      ensures r[i].prev == r[i - 1]
    {
      if i <= w {
        assert r[i - 1] == kids[i - 1];
      } else if i > w + 1 {
        assert r[i] == kids[i - 1] && r[i - 1] == kids[i - 2];
      }
    }
  }

  /** A whole list with the item linked in before the one at w. */
  lemma InsertedLinked(head: Node?, kids: seq<Node>, w: nat, item: Node)
    requires Distinct(kids) && item !in kids && w < |kids| && head == if w == 0 then item else kids[0]
    requires item.next == kids[w] && kids[w].prev == item && (w > 0 ==> kids[w - 1].next == item)
    requires item.prev == if w > 0 then kids[w - 1] else kids[|kids| - 1]
    requires forall i {:trigger kids[i].next} :: 0 <= i < |kids| && i + 1 != w ==> kids[i].next == At(kids, i + 1)
    requires forall i {:trigger kids[i].prev} :: 0 < i < |kids| && i != w ==> kids[i].prev == kids[i - 1]
    requires w > 0 ==> kids[0].prev == kids[|kids| - 1]
    ensures var r := Put(kids, w, item); Linked(head, r) && r[0].prev == r[|r| - 1]
  {
    hide Distinct;
    hide Nexts;
    hide Prevs;
    PutDistinct(kids, w, item);
    InsertedNexts(kids, w, item);
    InsertedPrevs(kids, w, item);
  }

  /** The links of an insertion before the item at w. */
  method LinkBefore(parent: Node, after: Node, item: Node, ghost w: nat)
    requires parent.Valid() && item !in parent.kids && item != parent && w < |parent.kids| && after == parent.kids[w]
    modifies parent`child, parent`kids, parent.kids, item
    ensures parent.Valid() && parent.kids == Put(old(parent.kids), w, item)
  {
    hide Distinct;
    hide Nexts;
    hide Prevs;
    ghost var kids := parent.kids;
    RelinkBefore(parent, after, item, w);
    InsertedLinked(parent.child, kids, w, item);
    parent.kids := Put(kids, w, item);
  }

  method RelinkBefore(parent: Node, after: Node, item: Node, ghost w: nat)
    requires parent.Valid() && item !in parent.kids && item != parent && w < |parent.kids| && after == parent.kids[w]
    modifies parent`child, parent.kids, item
    ensures parent.child == (if w == 0 then item else old(parent.child))
    ensures item.next == after && after.prev == item && (w > 0 ==> parent.kids[w - 1].next == item)
    ensures item.prev == if w > 0 then parent.kids[w - 1] else parent.kids[|parent.kids| - 1]
    ensures forall i {:trigger parent.kids[i].next} :: 0 <= i < |parent.kids| && i + 1 != w ==>
      parent.kids[i].next == At(parent.kids, i + 1)
    ensures forall i {:trigger parent.kids[i].prev} :: 0 < i < |parent.kids| && i != w ==>
      parent.kids[i].prev == parent.kids[i - 1]
    ensures w > 0 ==> parent.kids[0].prev == parent.kids[|parent.kids| - 1]
  {
    ghost var kids := parent.kids;
    assert forall i :: 0 <= i < |kids| && i != w ==> kids[i] != after;
    if w > 0 {
      assert after.prev == kids[w - 1];
      assert forall i :: 0 <= i < |kids| && i != w - 1 ==> kids[i] != kids[w - 1];
    }
    hide Distinct;
    item.next := after;
    item.prev := after.prev;
    after.prev := item;
    if after == parent.child {
      parent.child := item;
    } else {
      item.prev.next := item;
    }
  }

  /** cJSON_InsertItemInArray: before the item at `which`, or at the end. */
  method InsertItemInArray(parent: Node, which: int, item: Node?) returns (ok: bool)
    requires parent.Valid() && item !in parent.kids
    requires item != null && parent.kids != [] && which >= |parent.kids| ==> item.next == null
    requires 0 <= which < |parent.kids| ==> item != parent
    modifies parent`child, parent`kids, parent.kids, item
    ensures parent.Valid()
    ensures ok <==> which >= 0 && item != null && item != parent
    ensures ok ==> var i := if which < |old(parent.kids)| then which else |old(parent.kids)|;
      parent.kids == Put(old(parent.kids), i, item)
    ensures !ok ==> parent.kids == old(parent.kids)
  {
    if which < 0 || item == null {
      return false;
    }
    var after := GetArrayItem(parent, which);
    if after == null {
      ok := AddItemToArray(parent, item);
      return ok;
    }
    assert which > 0 ==> after.prev == parent.kids[which - 1];
    if after != parent.child && after.prev == null {
      return false;
    }
    LinkBefore(parent, after, item, which);
    return true;
  }

  function Without(kids: seq<Node>, w: nat): (r: seq<Node>)
    requires w < |kids|
    ensures |r| == |kids| - 1
    ensures forall i :: 0 <= i < |r| ==> r[i] == if i < w then kids[i] else kids[i + 1]
  {
    kids[..w] + kids[w + 1..]
  }

  lemma WithoutDistinct(kids: seq<Node>, w: nat)
    requires w < |kids| && Distinct(kids)
    ensures Distinct(Without(kids, w)) && kids[w] !in Without(kids, w)
  {
  }

  lemma RemovedNexts(kids: seq<Node>, w: nat)
    requires w < |kids| && (w > 0 ==> kids[w - 1].next == At(kids, w + 1))
    requires forall i {:trigger kids[i].next} :: 0 <= i < |kids| && i + 1 != w && i != w ==> kids[i].next == At(kids, i + 1)
    ensures Nexts(Without(kids, w))
  {
    var r := Without(kids, w);
    forall i | 0 <= i < |r|
      ensures r[i].next == At(r, i + 1)
    {
      if i < w {
        assert r[i] == kids[i];
      } else {
        assert r[i] == kids[i + 1];
      }
    }
  }

  lemma RemovedPrevs(kids: seq<Node>, w: nat)
    requires w < |kids| && (0 < w < |kids| - 1 ==> kids[w + 1].prev == kids[w - 1])
    requires forall i {:trigger kids[i].prev} :: 0 < i < |kids| && i != w && i != w + 1 ==> kids[i].prev == kids[i - 1]
    ensures Prevs(Without(kids, w))
  {
    var r := Without(kids, w);
    forall i | 0 < i < |r|
      ensures r[i].prev == r[i - 1]
    {
      if i < w {
        assert r[i] == kids[i] && r[i - 1] == kids[i - 1];
      } else {
        assert r[i] == kids[i + 1];
      }
    }
  }

  /** cJSON_DetachItemViaPointer of the item at w, or of NULL. */
  method DetachItemViaPointer(parent: Node, item: Node?, ghost w: nat) returns (r: Node?)
    requires parent.Valid() && (item != null ==> w < |parent.kids| && item == parent.kids[w])
    modifies parent`child, parent`kids, parent.kids
    ensures parent.Valid() && r == item
    ensures item == null ==> parent.kids == old(parent.kids)
    ensures item != null ==> parent.kids == Without(old(parent.kids), w) && item.next == null && item.prev == null
  {
    if item == null {
      return null;
    }
    ghost var kids := parent.kids;
    WithoutDistinct(kids, w);
    assert forall i :: 0 <= i < |kids| && i != w ==> kids[i] != kids[w];
    assert w > 0 ==> item.prev == kids[w - 1] && forall i :: 0 <= i < |kids| && i != w - 1 ==> kids[i] != kids[w - 1];
    assert w + 1 < |kids| ==> forall i :: 0 <= i < |kids| && i != w + 1 ==> kids[i] != kids[w + 1];
    hide Distinct;
    if item != parent.child {
      item.prev.next := item.next;
    }
    if item.next != null {
      item.next.prev := item.prev;
    }
    if item == parent.child {
      parent.child := item.next;
    } else if item.next == null {
      parent.child.prev := item.prev;
    }
    item.prev := null;
    item.next := null;
    parent.kids := Without(kids, w);
    RemovedNexts(kids, w);
    RemovedPrevs(kids, w);
    return item;
  }

  method DetachItemFromArray(parent: Node, which: int) returns (r: Node?)
    requires parent.Valid()
    modifies parent`child, parent`kids, parent.kids
    ensures parent.Valid()
    ensures 0 <= which < |old(parent.kids)| ==>
      r == old(parent.kids)[which] && parent.kids == Without(old(parent.kids), which) && r.next == null && r.prev == null
    ensures !(0 <= which < |old(parent.kids)|) ==> r == null && parent.kids == old(parent.kids)
  {
    if which < 0 {
      return null;
    }
    var item := GetArrayItem(parent, which);
    r := DetachItemViaPointer(parent, item, which);
  }

  lemma ReplacedNexts(kids: seq<Node>, w: nat, item: Node)
    requires w < |kids| && item.next == At(kids, w + 1) && (w > 0 ==> kids[w - 1].next == item)
    requires forall i {:trigger kids[i].next} :: 0 <= i < |kids| && i + 1 != w && i != w ==> kids[i].next == At(kids, i + 1)
    ensures Nexts(kids[w := item])
  {
  }

  lemma ReplacedPrevs(kids: seq<Node>, w: nat, item: Node)
    requires w < |kids| && (w > 0 ==> item.prev == kids[w - 1]) && (w + 1 < |kids| ==> kids[w + 1].prev == item)
    requires forall i {:trigger kids[i].prev} :: 0 < i < |kids| && i != w && i != w + 1 ==> kids[i].prev == kids[i - 1]
    ensures Prevs(kids[w := item])
  {
  }

  /** cJSON_ReplaceItemViaPointer of the item at w; the item is left to be deleted. */
  method ReplaceItemViaPointer(parent: Node, item: Node?, replacement: Node?, ghost w: nat) returns (ok: bool)
    requires parent.Valid() && (item != null && parent.kids != [] ==> w < |parent.kids| && item == parent.kids[w])
    requires replacement != null && replacement != item ==> replacement !in parent.kids && replacement != parent
    modifies parent`child, parent`kids, parent.kids, replacement
    ensures parent.Valid()
    ensures ok <==> old(parent.kids) != [] && item != null && replacement != null
    ensures parent.kids == if ok then old(parent.kids)[w := replacement] else old(parent.kids)
    ensures ok && replacement != item ==> item.next == null && item.prev == null
  {
    if parent.child == null || replacement == null || item == null {
      return false;
    }
    if replacement == item {
      return true;
    }
    Exchange(parent, item, replacement, w);
    return true;
  }

  method Exchange(parent: Node, item: Node, replacement: Node, ghost w: nat)
    requires parent.Valid() && w < |parent.kids| && item == parent.kids[w]
    requires replacement !in parent.kids && replacement != parent
    modifies parent`child, parent`kids, parent.kids, replacement
    ensures parent.Valid() && parent.kids == old(parent.kids)[w := replacement]
    ensures item.next == null && item.prev == null
  {
    ghost var kids := parent.kids;
    assert Distinct(kids[w := replacement]);
    assert forall i :: 0 <= i < |kids| && i != w ==> kids[i] != kids[w];
    assert w > 0 ==> item.prev == kids[w - 1] && forall i :: 0 <= i < |kids| && i != w - 1 ==> kids[i] != kids[w - 1];
    assert w + 1 < |kids| ==> forall i :: 0 <= i < |kids| && i != w + 1 ==> kids[i] != kids[w + 1];
    hide Distinct;
    replacement.next := item.next;
    replacement.prev := item.prev;
    if replacement.next != null {
      replacement.next.prev := replacement;
    }
    if parent.child == item {
      if parent.child.prev == parent.child {
        replacement.prev := replacement;
      }
      parent.child := replacement;
    } else {
      if replacement.prev != null {
        replacement.prev.next := replacement;
      }
      if replacement.next == null {
        parent.child.prev := replacement;
      }
    }
    item.next := null;
    item.prev := null;
    parent.kids := kids[w := replacement];
    ReplacedNexts(kids, w, replacement);
    ReplacedPrevs(kids, w, replacement);
  }
}
