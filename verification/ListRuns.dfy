/**
  Runs of edits on one child list: the members are edited as a sequence is, and
  the list stays whole throughout.
 */
module ListRuns {
  import opened JsonValues
  import opened ChildList
  import opened SortList

  /** cJSON_AddItemToArray, _InsertItemInArray, _DetachItemFromArray and _ReplaceItemInArray. */
  datatype Edit =
    | Add(m: Member)
    | Insert(which: int, m: Member)
    | Detach(which: int)
    | Replace(which: int, m: Member)

  /** The members after an edit; what is out of range is appended, or else nothing happens. */
  function Apply(ms: seq<Member>, edit: Edit): seq<Member> {
    match edit
    case Add(m) => ms + [m]
    case Insert(which, m) =>
      if which < 0 then ms else if which < |ms| then ms[..which] + [m] + ms[which..] else ms + [m]
    case Detach(which) => if 0 <= which < |ms| then ms[..which] + ms[which + 1..] else ms
    case Replace(which, m) => if 0 <= which < |ms| then ms[which := m] else ms
  }

  function ApplyAll(ms: seq<Member>, edits: seq<Edit>): seq<Member>
    decreases |edits|
  {
    if edits == [] then ms else ApplyAll(Apply(ms, edits[0]), edits[1..])
  }

  lemma PutItems(kids: seq<Node>, w: nat, item: Node)
    requires w <= |kids|
    ensures Items(ChildList.Put(kids, w, item)) == Items(kids)[..w] + [item.item] + Items(kids)[w..]
    ensures w == |kids| ==> ChildList.Put(kids, w, item) == kids + [item]
    ensures w == |kids| ==> Items(ChildList.Put(kids, w, item)) == Items(kids) + [item.item]
  {
  }

  lemma WithoutItems(kids: seq<Node>, w: nat)
    requires w < |kids|
    ensures Items(Without(kids, w)) == Items(kids)[..w] + Items(kids)[w + 1..]
  {
  }

  lemma ReplacedItems(kids: seq<Node>, w: nat, item: Node)
    requires w < |kids|
    ensures Items(kids[w := item]) == Items(kids)[w := item.item]
  {
  }

  /** No node has come in but this one. */
  ghost predicate From(after: seq<Node>, before: seq<Node>, item: Node?) {
    forall n :: n in after ==> n in before || n == item
  }

  lemma EditsFrom(kids: seq<Node>, w: int, item: Node)
    ensures 0 <= w <= |kids| ==> From(ChildList.Put(kids, w, item), kids, item)
    ensures 0 <= w < |kids| ==> From(Without(kids, w), kids, null) && From(kids[w := item], kids, item)
    ensures From(kids, kids, null)
  {
  }

  method AddMember(parent: Node, m: Member) returns (item: Node)
    requires parent.Valid()
    modifies parent`child, parent`kids, parent.kids
    ensures parent.Valid() && fresh(item) && From(parent.kids, old(parent.kids), item)
    ensures Items(parent.kids) == Apply(old(Items(parent.kids)), Add(m))
  {
    hide Linked;
    ghost var kids := parent.kids;
    item := new Node(m);
    EditsFrom(kids, |kids|, item);
    PutItems(kids, |kids|, item);
    hide From;
    hide Items;
    hide ChildList.Put;
    if kids != [] { assert kids[0].prev == kids[|kids| - 1] && kids[..|kids|] == kids; }
    var ok := AddItemToArray(parent, item);
    assert parent.kids == kids + [item];
  }

  method InsertMember(parent: Node, which: int, m: Member) returns (item: Node)
    requires parent.Valid()
    modifies parent`child, parent`kids, parent.kids
    ensures parent.Valid() && fresh(item) && From(parent.kids, old(parent.kids), item)
    ensures Items(parent.kids) == Apply(old(Items(parent.kids)), Insert(which, m))
  {
    hide Linked;
    ghost var kids := parent.kids;
    item := new Node(m);
    ghost var w := if 0 <= which < |kids| then which else |kids|;
    EditsFrom(kids, w, item);
    PutItems(kids, w, item);
    AlsoFrom(kids, item);
    hide From;
    hide Items;
    hide ChildList.Put;
    var ok := InsertItemInArray(parent, which, item);
  }

  lemma AlsoFrom(kids: seq<Node>, item: Node)
    ensures From(kids, kids, item)
  {
  }

  method DetachMember(parent: Node, which: int)
    requires parent.Valid()
    modifies parent`child, parent`kids, parent.kids
    ensures parent.Valid() && From(parent.kids, old(parent.kids), null)
    ensures Items(parent.kids) == Apply(old(Items(parent.kids)), Detach(which))
  {
    hide Linked;
    ghost var kids := parent.kids;
    EditsFrom(kids, which, parent);
    if 0 <= which < |kids| { WithoutItems(kids, which); }
    hide From;
    hide Items;
    hide Without;
    var detached := DetachItemFromArray(parent, which);
  }

  /** cJSON_ReplaceItemInArray. */
  method ReplaceMember(parent: Node, which: int, m: Member) returns (item: Node)
    requires parent.Valid()
    modifies parent`child, parent`kids, parent.kids
    ensures parent.Valid() && fresh(item) && From(parent.kids, old(parent.kids), item)
    ensures Items(parent.kids) == Apply(old(Items(parent.kids)), Replace(which, m))
  {
    hide Linked;
    ghost var kids := parent.kids;
    item := new Node(m);
    AlsoFrom(kids, item);
    EditsFrom(kids, which, item);
    if 0 <= which < |kids| { ReplacedItems(kids, which, item); }
    hide From;
    hide Items;
    if which >= 0 {
      var replaced := GetArrayItem(parent, which);
      var ok := ReplaceItemViaPointer(parent, replaced, item, which);
    }
  }

  method Perform(parent: Node, edit: Edit)
    requires parent.Valid()
    modifies parent`child, parent`kids, parent.kids
    ensures parent.Valid() && Items(parent.kids) == Apply(old(Items(parent.kids)), edit)
    ensures forall i :: 0 <= i < |parent.kids| ==> parent.kids[i] in old(parent.kids) || fresh(parent.kids[i])
  {
    hide Items;
    hide Apply;
    hide Linked;
    match edit {
      case Add(m) => var item := AddMember(parent, m);
      case Insert(which, m) => var item := InsertMember(parent, which, m);
      case Detach(which) => DetachMember(parent, which);
      case Replace(which, m) => var item := ReplaceMember(parent, which, m);
    }
  }

  /** Over any run of edits the list is whole and holds what editing the sequence gives. */
  method Run(parent: Node, edits: seq<Edit>)
    requires parent.Valid()
    modifies parent`child, parent`kids, parent.kids
    ensures parent.Valid() && Items(parent.kids) == ApplyAll(old(Items(parent.kids)), edits)
  {
    hide Items;
    hide Apply;
    hide Linked;
    var i := 0;
    assert edits[0..] == edits;
    while i < |edits|
      invariant 0 <= i <= |edits| && parent.Valid()
      invariant forall i :: 0 <= i < |parent.kids| ==> parent.kids[i] in old(parent.kids) || fresh(parent.kids[i])
      invariant ApplyAll(Items(parent.kids), edits[i..]) == ApplyAll(old(Items(parent.kids)), edits)
    {
      assert edits[i..][1..] == edits[i + 1..];
      Perform(parent, edits[i]);
      i := i + 1;
    }
  }
}
