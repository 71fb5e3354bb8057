/**
  The merge sort of child lists, done by relinking, and what an addition to a sorted
  list does.
 */
module SortList {
  import opened CStrings
  import opened JsonValues
  import opened Members
  import opened ChildList

  function Items(ns: seq<Node>): (r: seq<Member>)
    ensures |r| == |ns| && forall i :: 0 <= i < |ns| ==> r[i] == ns[i].item
  {
    seq(|ns|, i requires 0 <= i < |ns| => ns[i].item)
  }

  lemma ItemsConcat(a: seq<Node>, b: seq<Node>)
    ensures Items(a + b) == Items(a) + Items(b)
  {
  }

  /** The nodes of a merge so far: linked, but for the next of the last one. */
  ghost predicate Opened(ns: seq<Node>)
    reads ns
  {
    Prevs(ns) && forall i {:trigger ns[i].next} :: 0 <= i < |ns| - 1 ==> ns[i].next == ns[i + 1]
  }

  lemma AddOpened(ns: seq<Node>, n: Node)
    requires Opened(ns) && (ns != [] ==> ns[|ns| - 1].next == n && n.prev == ns[|ns| - 1])
    ensures Opened(ns + [n])
  {
  }

  lemma JoinLinked(front: seq<Node>, rest: seq<Node>, head: Node?)
    requires Opened(front) && front != [] && Linked(head, rest) && rest != [] && Distinct(front + rest)
    requires front[|front| - 1].next == head && rest[0].prev == front[|front| - 1]
    ensures Linked(front[0], front + rest)
  {
    hide Distinct;
    var all := front + rest;
    forall i | 0 <= i < |all|
      ensures all[i].next == At(all, i + 1)
    {
      if i < |front| {
        assert all[i] == front[i];
      } else {
        assert all[i] == rest[i - |front|];
      }
    }
    forall i | 0 < i < |all|
      ensures all[i].prev == all[i - 1]
    {
      if i < |front| {
        assert all[i] == front[i];
      } else {
        assert all[i] == rest[i - |front|];
      }
    }
  }

  lemma TailLinked(head: Node?, ns: seq<Node>)
    requires Linked(head, ns) && ns != []
    ensures head == ns[0] && Linked(head.next, ns[1..])
  {
    var rest := ns[1..];
    assert forall i :: 0 <= i < |rest| ==> rest[i] == ns[i + 1];
  }

  lemma ComparesBefore(a: Member, b: Member, caseSensitive: bool)
    ensures CompareStrings(a.key, b.key, caseSensitive) < 0 <==> Before(a, b, caseSensitive)
  {
    LessIrreflexive(View(a.key, caseSensitive));
  }

  /** The first scan: is the list strictly increasing already? */
  method IsAscending(list: Node?, ghost ns: seq<Node>, caseSensitive: bool) returns (ascending: bool)
    requires Linked(list, ns)
    ensures ascending == Ascending(Items(ns), caseSensitive)
  {
    var current := list;
    ghost var rest := ns;
    while current != null && current.next != null && CompareStrings(current.item.key, current.next.item.key, caseSensitive) < 0
      invariant Linked(current, rest)
      invariant Ascending(Items(ns), caseSensitive) == Ascending(Items(rest), caseSensitive)
      decreases |rest|
    {
      TailLinked(current, rest);
      ComparesBefore(current.item, current.next.item, caseSensitive);
      assert Items(rest)[1..] == Items(rest[1..]);
      current := current.next;
      rest := rest[1..];
    }
    if current != null {
      TailLinked(current, rest);
      if current.next != null { ComparesBefore(current.item, current.next.item, caseSensitive); }
    }
    assert |rest| > 1 ==> Items(rest)[0] == current.item && Items(rest)[1] == current.next.item;
    ascending := current == null || current.next == null;
  }

  /** Two pointers, one twice as fast, find the middle. */
  method FindMiddle(list: Node?, ghost ns: seq<Node>) returns (second: Node?)
    requires Linked(list, ns)
    ensures second == At(ns, (|ns| + 1) / 2)
  {
    hide Distinct;
    hide Prevs;
    second := list;
    var current := list;
    ghost var i := 0;
    while current != null
      invariant 0 <= i <= |ns| && second == At(ns, i) && i <= (|ns| + 1) / 2
      invariant current == At(ns, 2 * i) && (current == null ==> i == (|ns| + 1) / 2)
      decreases |ns| - i
    {
      second := second.next;
      current := current.next;
      if current != null {
        current := current.next;
      }
      i := i + 1;
    }
  }

  /** The list falls into two that end in NULL. */
  method Split(list: Node?, second: Node, ghost ns: seq<Node>, ghost mid: nat)
    requires Linked(list, ns) && 0 < mid < |ns| && second == ns[mid]
    modifies {ns[mid - 1]}`next, second`prev
    ensures Linked(list, ns[..mid]) && Linked(second, ns[mid..]) && second.prev == null
  {
    if second.prev != null {
      second.prev.next := null;
      second.prev := null;
    }
    var a, b := ns[..mid], ns[mid..];
    assert forall i :: 0 <= i < mid ==> a[i] == ns[i];
    assert forall i :: 0 <= i < |b| ==> b[i] == ns[mid + i];
  }

  // ----- merging -----

  ghost predicate Apart(a: seq<Node>, b: seq<Node>) {
    forall i, j :: 0 <= i < |a| && 0 <= j < |b| ==> a[i] != b[j]
  }

  lemma TakeApart(out: seq<Node>, a: seq<Node>, b: seq<Node>)
    requires a != [] && Distinct(out) && Distinct(a) && Apart(out, a) && Apart(out, b) && Apart(a, b)
    ensures a[0] !in out && Distinct(out + [a[0]]) && Apart(out + [a[0]], a[1..]) && Apart(out + [a[0]], b) && Apart(a[1..], b)
  {
  }

  lemma ApartSwaps(a: seq<Node>, b: seq<Node>)
    requires Apart(a, b)
    ensures Apart(b, a)
  {
  }

  ghost predicate Tip(result: Node?, tail: Node?, out: seq<Node>)
    reads out
  {
    Distinct(out) && Opened(out) && result == At(out, 0) && tail == (if out == [] then null else out[|out| - 1])
  }

  /** A merge under way: out is merged, a and b are still to come. */
  ghost predicate Merging(result: Node?, tail: Node?, out: seq<Node>, first: Node?, a: seq<Node>, second: Node?, b: seq<Node>)
    reads out, a, b
  {
    Tip(result, tail, out) && Linked(first, a) && Linked(second, b) && Apart(out, a) && Apart(out, b) && Apart(a, b)
  }

  /** The smaller node goes to the end of the merged list and leaves its own. */
  method Take(result: Node?, tail: Node?, smaller: Node,
              ghost out: seq<Node>, ghost a: seq<Node>, ghost b: seq<Node>, ghost other: Node?)
    returns (newResult: Node, newTail: Node)
    requires Merging(result, tail, out, smaller, a, other, b)
    modifies (if tail == null then {} else {tail})`next, smaller`prev
    ensures Merging(newResult, newTail, out + [smaller], smaller.next, a[1..], other, b)
    ensures newResult == (if result == null then smaller else result) && newResult.prev == old(newResult.prev)
  {
    TakeApart(out, a, b);
    hide Distinct;
    if result == null {
      newTail := smaller;
      newResult := smaller;
    } else {
      newResult := result;
      tail.next := smaller;
      smaller.prev := tail;
      newTail := smaller;
    }
    AddOpened(out, smaller);
    TailLinked(smaller, a);
  }

  lemma MergeStep(a: seq<Node>, b: seq<Node>, caseSensitive: bool)
    requires a != [] && b != []
    ensures Before(a[0].item, b[0].item, caseSensitive) ==>
      Merge(Items(a), Items(b), caseSensitive) == [a[0].item] + Merge(Items(a[1..]), Items(b), caseSensitive)
    ensures !Before(a[0].item, b[0].item, caseSensitive) ==>
      Merge(Items(a), Items(b), caseSensitive) == [b[0].item] + Merge(Items(a), Items(b[1..]), caseSensitive)
  {
    assert Items(a)[1..] == Items(a[1..]) && Items(b)[1..] == Items(b[1..]);
  }

  /** What is merged and what is still to come are, together, what there was. */
  ghost predicate Accounts(out: seq<Node>, a: seq<Node>, b: seq<Node>, all: multiset<Node>, merged: seq<Member>, caseSensitive: bool) {
    multiset(out) + multiset(a) + multiset(b) == all &&
    Items(out) + Merge(Items(a), Items(b), caseSensitive) == merged
  }

  lemma CountsFirst(out: seq<Node>, a: seq<Node>)
    requires a != []
    ensures multiset(out + [a[0]]) + multiset(a[1..]) == multiset(out) + multiset(a)
  {
    assert a == [a[0]] + a[1..];
  }

  lemma ItemsFirst(out: seq<Node>, n: Node, more: seq<Member>)
    ensures Items(out) + ([n.item] + more) == Items(out + [n]) + more
  {
    assert Items(out + [n]) == Items(out) + [n.item];
  }

  lemma AccountsFirst(out: seq<Node>, a: seq<Node>, b: seq<Node>, all: multiset<Node>, merged: seq<Member>, caseSensitive: bool)
    requires Accounts(out, a, b, all, merged, caseSensitive)
    requires a != [] && b != [] && Before(a[0].item, b[0].item, caseSensitive)
    ensures Accounts(out + [a[0]], a[1..], b, all, merged, caseSensitive)
  {
    hide Merge;
    hide Items;
    MergeStep(a, b, caseSensitive);
    CountsFirst(out, a);
    ItemsFirst(out, a[0], Merge(Items(a[1..]), Items(b), caseSensitive));
  }

  lemma AccountsSecond(out: seq<Node>, a: seq<Node>, b: seq<Node>, all: multiset<Node>, merged: seq<Member>, caseSensitive: bool)
    requires Accounts(out, a, b, all, merged, caseSensitive)
    requires a != [] && b != [] && !Before(a[0].item, b[0].item, caseSensitive)
    ensures Accounts(out + [b[0]], a, b[1..], all, merged, caseSensitive)
  {
    hide Merge;
    hide Items;
    MergeStep(a, b, caseSensitive);
    CountsFirst(out, b);
    assert multiset(out + [b[0]]) + multiset(a) + multiset(b[1..]) ==
      multiset(out + [b[0]]) + multiset(b[1..]) + multiset(a);
    assert multiset(out) + multiset(a) + multiset(b) == multiset(out) + multiset(b) + multiset(a);
    ItemsFirst(out, b[0], Merge(Items(a), Items(b[1..]), caseSensitive));
  }

  lemma AccountsLast(out: seq<Node>, a: seq<Node>, b: seq<Node>, all: multiset<Node>, merged: seq<Member>, caseSensitive: bool)
    requires Accounts(out, a, b, all, merged, caseSensitive) && (a == [] || b == [])
    ensures var r := out + if a == [] then b else a; multiset(r) == all && Items(r) == merged
  {
    ItemsConcat(out, if a == [] then b else a);
  }

  ghost predicate Within(ns: seq<Node>, nodes: set<Node>) {
    forall n :: n in ns ==> n in nodes
  }

  lemma WithinStep(out: seq<Node>, ns: seq<Node>, nodes: set<Node>)
    requires Within(out, nodes) && Within(ns, nodes) && ns != []
    ensures Within(out + [ns[0]], nodes) && Within(ns[1..], nodes)
  {
  }

  lemma NothingMerged(ns1: seq<Node>, ns2: seq<Node>, caseSensitive: bool)
    ensures Apart([], ns1) && Apart([], ns2)
    ensures Accounts([], ns1, ns2, multiset(ns1) + multiset(ns2), Merge(Items(ns1), Items(ns2), caseSensitive), caseSensitive)
  {
  }

  /** What is left of one list goes to the end. */
  method AppendRest(result: Node?, tail: Node?, rest: Node, ghost out: seq<Node>, ghost left: seq<Node>) returns (r: Node)
    requires Tip(result, tail, out) && Linked(rest, left) && Apart(out, left)
    modifies (if tail == null then {} else {tail})`next, rest`prev
    ensures Linked(r, out + left)
    ensures r == (if result == null then rest else result) && r.prev == old(r.prev)
  {
    if result == null {
      assert out + left == left;
      return rest;
    }
    assert Distinct(out + left);
    hide Distinct;
    tail.next := rest;
    rest.prev := tail;
    JoinLinked(out, left, rest);
    return result;
  }

  method MergeLists(list1: Node?, list2: Node?, ghost ns1: seq<Node>, ghost ns2: seq<Node>,
                    ghost nodes: set<Node>, caseSensitive: bool)
    returns (result: Node?, ghost out: seq<Node>)
    requires Linked(list1, ns1) && Linked(list2, ns2) && Apart(ns1, ns2) && list1 != null && list2 != null
    requires Within(ns1, nodes) && Within(ns2, nodes)
    modifies nodes
    ensures Linked(result, out) && multiset(out) == multiset(ns1) + multiset(ns2)
    ensures Items(out) == Merge(Items(ns1), Items(ns2), caseSensitive)
    ensures (result == list1 || result == list2) && result.prev == old(result.prev)
  {
    hide Merge;
    hide Apart;
    hide Accounts;
    NothingMerged(ns1, ns2, caseSensitive);
    var first, second := list1, list2;
    ghost var a, b := ns1, ns2;
    ghost var all, merged := multiset(ns1) + multiset(ns2), Merge(Items(ns1), Items(ns2), caseSensitive);
    var tail: Node? := null;
    result, out := null, [];
    while first != null && second != null
      invariant Merging(result, tail, out, first, a, second, b) && (first != null || second != null)
      invariant Accounts(out, a, b, all, merged, caseSensitive)
      invariant result == null ==> first == list1 && second == list2 && list1.prev == old(list1.prev) && list2.prev == old(list2.prev)
      invariant result != null ==> (result == list1 || result == list2) && result.prev == old(result.prev)
      invariant Within(out, nodes) && Within(a, nodes) && Within(b, nodes)
      decreases |a| + |b|
    {
      assert tail != null ==> tail in out;
      ComparesBefore(first.item, second.item, caseSensitive);
      var smaller: Node;
      if CompareStrings(first.item.key, second.item.key, caseSensitive) < 0 {
        smaller := first;
        AccountsFirst(out, a, b, all, merged, caseSensitive);
        WithinStep(out, a, nodes);
        assert smaller in a;
        result, tail := Take(result, tail, smaller, out, a, b, second);
        out, a, first := out + [smaller], a[1..], first.next;
      } else {
        smaller := second;
        AccountsSecond(out, a, b, all, merged, caseSensitive);
        ApartSwaps(a, b);
        WithinStep(out, b, nodes);
        assert smaller in b;
        result, tail := Take(result, tail, smaller, out, b, a, first);
        out, b, second := out + [smaller], b[1..], second.next;
        ApartSwaps(b, a);
      }
    }
    AccountsLast(out, a, b, all, merged, caseSensitive);
    assert tail != null ==> tail in out;
    if first != null {
      assert first in a;
      result := AppendRest(result, tail, first, out, a);
      out := out + a;
    }
    if second != null {
      assert second in b;
      result := AppendRest(result, tail, second, out, b);
      out := out + b;
    }
  }

  lemma SplitItems(ns: seq<Node>, mid: nat)
    requires mid <= |ns|
    ensures Items(ns[..mid]) == Items(ns)[..mid] && Items(ns[mid..]) == Items(ns)[mid..]
    ensures multiset(ns[..mid]) + multiset(ns[mid..]) == multiset(ns)
    ensures Distinct(ns) ==> Apart(ns[..mid], ns[mid..])
  {
    assert ns == ns[..mid] + ns[mid..];
  }

  lemma PermutedWithin(a: seq<Node>, b: seq<Node>, nodes: set<Node>)
    requires multiset(a) == multiset(b) && Within(a, nodes)
    ensures Within(b, nodes)
  {
    forall n | n in b
      ensures n in nodes
    {
      assert n in multiset(b);
    }
  }

  lemma SetsApart(a: seq<Node>, b: seq<Node>, x: set<Node>, y: set<Node>)
    requires Within(a, x) && Within(b, y) && x !! y
    ensures Apart(a, b)
  {
    forall i, j | 0 <= i < |a| && 0 <= j < |b|
      ensures a[i] != b[j]
    {
      assert a[i] in a && b[j] in b;
    }
  }

  /**
    sort_list. The result is the sort of the values: same nodes, linked both
    ways and ended by NULL. The prev of the first node is what it was, or NULL
    when another node has come to the front.
   */
  method Sort(list: Node?, ghost ns: seq<Node>, ghost nodes: set<Node>, caseSensitive: bool)
    returns (result: Node?, ghost out: seq<Node>)
    requires Linked(list, ns) && Within(ns, nodes)
    modifies nodes
    ensures Linked(result, out) && multiset(out) == multiset(ns)
    ensures Items(out) == SortMembers(Items(ns), caseSensitive)
    ensures result != null ==> result.prev == if result == list then old(list.prev) else null
    decreases |ns|, 1
  {
    if list == null || list.next == null {
      if ns != [] { TailLinked(list, ns); }
      return list, ns;
    }
    TailLinked(list, ns);
    var ascending := IsAscending(list, ns, caseSensitive);
    if ascending {
      return list, ns;
    }
    var second := FindMiddle(list, ns);
    ghost var mid := (|ns| + 1) / 2;
    SplitItems(ns, mid);
    Split(list, second, ns, mid);
    result, out := SortHalves(list, second, ns[..mid], ns[mid..], nodes, caseSensitive);
  }

  /** The two calls on the halves, and the merge. */
  method SortHalves(list1: Node, list2: Node, ghost ns1: seq<Node>, ghost ns2: seq<Node>, ghost nodes: set<Node>, caseSensitive: bool)
    returns (result: Node?, ghost out: seq<Node>)
    requires Linked(list1, ns1) && Linked(list2, ns2) && Apart(ns1, ns2) && Within(ns1, nodes) && Within(ns2, nodes)
    requires list2.prev == null
    modifies nodes
    ensures Linked(result, out) && multiset(out) == multiset(ns1) + multiset(ns2)
    ensures Items(out) == Merge(SortMembers(Items(ns1), caseSensitive), SortMembers(Items(ns2), caseSensitive), caseSensitive)
    ensures result != null && result.prev == if result == list1 then old(list1.prev) else null
    decreases |ns1| + |ns2|, 0
  {
    hide Merge;
    hide SortMembers;
    var first, second;
    ghost var a, b;
    ghost var set1, set2 := set n | n in ns1, set n | n in ns2;
    first, a := Sort(list1, ns1, set1, caseSensitive);
    PermutedWithin(ns1, a, set1);
    second, b := Sort(list2, ns2, set2, caseSensitive);
    PermutedWithin(ns2, b, set2);
    SetsApart(a, b, set1, set2);
    result, out := MergeLists(first, second, a, b, nodes, caseSensitive);
  }

  /** sort_object: the child list is linked again, but for the prev of its first child. */
  method SortObject(parent: Node, caseSensitive: bool)
    requires parent.Valid()
    modifies parent`child, parent`kids, parent.kids
    ensures Linked(parent.child, parent.kids) && multiset(parent.kids) == multiset(old(parent.kids))
    ensures parent !in parent.kids && Items(parent.kids) == SortMembers(Items(old(parent.kids)), caseSensitive)
    ensures HeadPrev(parent.kids, old(parent.kids))
  {
    ghost var kids := parent.kids;
    ghost var nodes := set n | n in kids;
    ghost var out;
    hide Nexts;
    hide Prevs;
    hide Distinct;
    var list;
    list, out := Sort(parent.child, kids, nodes, caseSensitive);
    PermutedWithin(kids, out, nodes);
    assert |multiset(out)| == |multiset(kids)| && parent !in out;
    parent.child := list;
    parent.kids := out;
  }

  /** What the sort leaves in the prev of the first child, once the last child. */
  ghost predicate HeadPrev(kids: seq<Node>, before: seq<Node>)
    reads kids
  {
    |kids| == |before| && (kids != [] ==> kids[0].prev == if kids[0] == before[0] then before[|before| - 1] else null)
  }

  /** A sorted child list is whole again only if its first and last child stayed where they were. */
  lemma SortedWhole(parent: Node, before: seq<Node>)
    requires Linked(parent.child, parent.kids) && parent !in parent.kids && HeadPrev(parent.kids, before)
    ensures var n := |before|;
      parent.Valid() <==> n == 0 || (parent.kids[0] == before[0] && parent.kids[n - 1] == before[n - 1])
  {
  }

  // ----- adding to what a sort has left -----

  /** What sorting an object with unique names and then adding a member to it makes of its members. */
  function AddedMembers(ms: seq<Member>, m: Member, caseSensitive: bool): seq<Member> {
    AddedBehind(ms, SortMembers(ms, caseSensitive), m)
  }

  function AddedBehind(ms: seq<Member>, s: seq<Member>, m: Member): seq<Member>
    requires |s| == |ms|
  {
    if s == [] then [m]
    else if s[0] != ms[0] then s
    else s[..BehindOldLast(ms, s)] + [m]
  }

  /** How many members of the sorted list end at the one that was last before. */
  function BehindOldLast(ms: seq<Member>, s: seq<Member>): (n: nat)
    requires ms != []
    ensures n <= |s|
  {
    var i := FindMember(s, ms[|ms| - 1].key, true);
    if i < |s| then i + 1 else |s|
  }

  /** The member comes to the end exactly when the list is empty or the sort left its first and last member in place. */
  lemma AddedAtEnd(ms: seq<Member>, m: Member, caseSensitive: bool)
    requires UniqueKeys(ms)
    ensures var (s, n) := (SortMembers(ms, caseSensitive), |ms|);
      AddedMembers(ms, m, caseSensitive) == s + [m] <==> n == 0 || (s[0] == ms[0] && s[n - 1] == ms[n - 1])
  {
    AddedToSorted(ms, SortMembers(ms, caseSensitive), m);
  }

  lemma AddedToSorted(ms: seq<Member>, s: seq<Member>, m: Member)
    requires UniqueKeys(ms) && multiset(s) == multiset(ms) && |s| == |ms|
    ensures var n := |ms|;
      AddedBehind(ms, s, m) == s + [m] <==> n == 0 || (s[0] == ms[0] && s[n - 1] == ms[n - 1])
  {
    if s != [] {
      OldLast(ms, s);
      hide BehindOldLast;
      hide UniqueKeys;
      UpToWhole(s, BehindOldLast(ms, s), m);
    }
  }

  lemma OldLast(ms: seq<Member>, s: seq<Member>)
    requires UniqueKeys(ms) && ms != [] && multiset(s) == multiset(ms) && |s| == |ms|
    ensures BehindOldLast(ms, s) == |s| <==> s[|s| - 1] == ms[|ms| - 1]
  {
    var last := ms[|ms| - 1];
    PermutedKeys(ms, s);
    SameMembers(ms, s);
    assert last in s;
    var i :| 0 <= i < |s| && s[i] == last;
    assert FindMember(s, last.key, true) == i;
  }

  lemma UpToWhole<T>(s: seq<T>, n: nat, x: T)
    requires n <= |s|
    ensures s[..n] + [x] == s + [x] <==> n == |s|
    ensures s != s + [x]
  {
    assert |s| != |s + [x]|;
    if n == |s| { assert s[..n] == s; }
    assert |s[..n] + [x]| == n + 1;
  }

  lemma OneSplit(ms: seq<Member>, caseSensitive: bool)
    ensures |ms| <= 1 || Ascending(ms, caseSensitive) ==> SortMembers(ms, caseSensitive) == ms
    ensures |ms| > 1 && !Ascending(ms, caseSensitive) ==> var mid := (|ms| + 1) / 2;
      SortMembers(ms, caseSensitive) ==
      Merge(SortMembers(ms[..mid], caseSensitive), SortMembers(ms[mid..], caseSensitive), caseSensitive)
  {
  }

  lemma FirstTwo<T>(x: T, y: T, z: T, n: T)
    ensures [x, y, z][..2] == [x, y] && [x, y, z][2..] == [z] && [x, y, z][..2] + [n] == [x, y, n]
  {
  }

  lemma SortThree(a: Member, b: Member, c: Member)
    requires a.key == "a" && b.key == "b" && c.key == "c"
    ensures SortMembers([a, c, b], true) == [a, b, c]
  {
    var ms := [a, c, b];
    assert Before(a, b, true) && Before(a, c, true) && !Before(c, b, true);
    hide Before;
    hide SortMembers;
    assert ms[1..] == [c, b] && !Ascending([c, b], true) && !Ascending(ms, true);
    assert [a, c][1..] == [c] && Ascending([c], true) && Ascending([a, c], true);
    hide Ascending;
    OneSplit(ms, true);
    OneSplit([a, c], true);
    OneSplit([b], true);
    FirstTwo(a, c, b, b);
    MergeThree(a, b, c);
  }

  lemma MergeThree(a: Member, b: Member, c: Member)
    requires Before(a, b, true) && !Before(c, b, true)
    ensures Merge([a, c], [b], true) == [a, b, c]
  {
    hide Before;
    MergeTurn([a, c], [b], true);
    MergeTurn([c], [b], true);
    hide Merge;
    assert [b][1..] == [] && [a, c][1..] == [c];
  }

  lemma MergeTurn(x: seq<Member>, y: seq<Member>, caseSensitive: bool)
    requires x != [] && y != []
    ensures Merge(x, [], caseSensitive) == x
    ensures Merge(x, y, caseSensitive) ==
      if Before(x[0], y[0], caseSensitive) then [x[0]] + Merge(x[1..], y, caseSensitive)
      else [y[0]] + Merge(x, y[1..], caseSensitive)
  {
  }

  /** Three members, of which the last sorts between the others: the one that sorts last is cut off. */
  lemma MemberCutOff(a: Member, b: Member, c: Member, d: Member)
    requires a.key == "a" && b.key == "b" && c.key == "c"
    ensures AddedMembers([a, c, b], d, true) == [a, b, d]
  {
    hide SortMembers;
    SortThree(a, b, c);
    assert FindMember([a, b, c], "b", true) == 1;
    FirstTwo(a, b, c, d);
  }

  /** sort_object, and then cJSON_AddItemToArray on the same object. */
  method SortAndAdd(parent: Node, item: Node, caseSensitive: bool) returns (ghost sorted: seq<Node>)
    requires parent.Valid() && item !in parent.kids && item != parent && item.next == null
    requires UniqueKeys(Items(parent.kids))
    modifies parent`child, parent`kids, parent.kids, item
    ensures multiset(sorted) == multiset(old(parent.kids))
    ensures Items(sorted) == SortMembers(Items(old(parent.kids)), caseSensitive)
    ensures var (before, n) := (old(parent.kids), |sorted|);
      parent.kids == sorted + [item] <==> n == 0 || (sorted[0] == before[0] && sorted[n - 1] == before[n - 1])
    ensures Items(parent.kids) == AddedMembers(Items(old(parent.kids)), item.item, caseSensitive)
  {
    hide Distinct;
    hide Nexts;
    hide Prevs;
    hide SortMembers;
    hide AddedMembers;
    ghost var before := parent.kids;
    SortObject(parent, caseSensitive);
    sorted := parent.kids;
    ghost var w := SortedHead(before, sorted);
    SortLeaves(parent, before, w);
    GrownItems(before, sorted, w, item, caseSensitive);
    GrownWhole(before, sorted, w, item);
    hide Grown;
    hide Items;
    hide HeadPrev;
    hide Linked;
    hide Chained;
    assert forall i :: 0 <= i < |sorted| ==> exists j :: 0 <= j < |before| && before[j] == sorted[i];
    AddToSorted(parent, item, before, w);
  }

  method AddToSorted(parent: Node, item: Node, ghost before: seq<Node>, ghost w: nat)
    requires Chained(parent) && |parent.kids| == |before| && item !in parent.kids && item != parent && item.next == null
    requires before != [] ==> w < |before|
    requires before != [] ==> parent.kids[0].prev == if parent.kids[0] == before[0] then parent.kids[w] else null
    modifies parent`child, parent`kids, parent.kids, item
    ensures parent.kids == Grown(before, old(parent.kids), w, item)
  {
    hide Linked;
    ghost var sorted := parent.kids;
    var ok := AddItemToArray(parent, item);
    if sorted != [] && sorted[0] == before[0] {
      assert parent.kids == sorted[..w + 1] + [item];
    }
  }

  lemma SortLeaves(parent: Node, before: seq<Node>, w: nat)
    requires Linked(parent.child, parent.kids) && parent !in parent.kids && HeadPrev(parent.kids, before)
    requires before != [] ==> w < |parent.kids| && parent.kids[w] == before[|before| - 1]
    ensures Chained(parent)
    ensures before != [] ==> parent.kids[0].prev == if parent.kids[0] == before[0] then parent.kids[w] else null
  {
  }

  /** The children after the addition; w is where the child is now that was last before. */
  function Grown(before: seq<Node>, sorted: seq<Node>, w: nat, item: Node): seq<Node>
    requires |sorted| == |before| && (sorted != [] ==> w < |sorted|)
  {
    if sorted == [] then [item] else if sorted[0] != before[0] then sorted else sorted[..w + 1] + [item]
  }

  /** The place of the child that was last before. */
  lemma SortedHead(before: seq<Node>, sorted: seq<Node>) returns (w: nat)
    requires multiset(before) == multiset(sorted)
    ensures |sorted| == |before| && (before != [] ==> w < |sorted| && sorted[w] == before[|before| - 1])
    ensures forall i :: 0 <= i < |sorted| ==> sorted[i] in before
  {
    assert |multiset(before)| == |multiset(sorted)|;
    forall i | 0 <= i < |sorted|
      ensures sorted[i] in before
    {
      assert sorted[i] in multiset(sorted);
    }
    w := 0;
    if before != [] {
      assert before[|before| - 1] in multiset(sorted);
      w :| 0 <= w < |sorted| && sorted[w] == before[|before| - 1];
    }
  }

  lemma GrownWhole(before: seq<Node>, sorted: seq<Node>, w: nat, item: Node)
    requires Distinct(before) && multiset(before) == multiset(sorted) && |before| == |sorted| && item !in sorted
    requires before != [] ==> w < |sorted| && sorted[w] == before[|before| - 1]
    ensures var n := |sorted|;
      Grown(before, sorted, w, item) == sorted + [item] <==>
        n == 0 || (sorted[0] == before[0] && sorted[n - 1] == before[n - 1])
  {
    var n := |sorted|;
    if n > 0 {
      if sorted[n - 1] == before[n - 1] && w < n - 1 {
        TwoCopies(sorted, w, n - 1);
        CopyTwice(before, sorted[w]);
      }
      UpToWhole(sorted, w + 1, item);
    }
  }

  lemma GrownItems(before: seq<Node>, sorted: seq<Node>, w: nat, item: Node, caseSensitive: bool)
    requires UniqueKeys(Items(before)) && multiset(before) == multiset(sorted) && |before| == |sorted|
    requires Items(sorted) == SortMembers(Items(before), caseSensitive)
    requires before != [] ==> w < |sorted| && sorted[w] == before[|before| - 1]
    ensures Items(Grown(before, sorted, w, item)) == AddedMembers(Items(before), item.item, caseSensitive)
  {
    hide SortMembers;
    hide UniqueKeys;
    hide BehindOldLast;
    if sorted != [] {
      SortedPlaces(before, sorted, w);
      ItemsUpTo(sorted, w, item);
    }
  }

  /** Where nodes are is where their members are. */
  lemma SortedPlaces(before: seq<Node>, sorted: seq<Node>, w: nat)
    requires UniqueKeys(Items(before)) && multiset(before) == multiset(sorted) && multiset(Items(before)) == multiset(Items(sorted))
    requires |before| == |sorted| && w < |sorted| && sorted[w] == before[|before| - 1]
    ensures sorted[0] == before[0] <==> Items(sorted)[0] == Items(before)[0]
    ensures BehindOldLast(Items(before), Items(sorted)) == w + 1
  {
    var ms, s := Items(before), Items(sorted);
    PermutedKeys(ms, s);
    assert sorted[0] in multiset(before);
    var j :| 0 <= j < |before| && before[j] == sorted[0];
    assert ms[j] == s[0] && s[w] == ms[|ms| - 1];
    assert j > 0 ==> ms[j].key != ms[0].key && before[j] != before[0];
    assert FindMember(s, ms[|ms| - 1].key, true) == w;
  }

  lemma ItemsUpTo(ns: seq<Node>, w: nat, item: Node)
    requires w < |ns|
    ensures Items(ns[..w + 1] + [item]) == Items(ns)[..w + 1] + [item.item]
  {
  }
}
