/**
  cJSON_Duplicate: a copy of a whole tree in new nodes, whose links are whole at
  every depth, whatever the prev links of the original are.
 */
module TreeCopy {
  import opened JsonValues
  import opened ChildList
  import opened SortList

  /** A node with everything that the links below it lead to. */
  datatype Shape = Shape(node: Node, below: seq<Shape>)

  /** What is copied: the name and value of each node, and how the nodes nest. */
  datatype Tree = Tree(item: Member, below: seq<Tree>)

  function Roots(ss: seq<Shape>): (r: seq<Node>)
    ensures |r| == |ss| && forall i :: 0 <= i < |ss| ==> r[i] == ss[i].node
  {
    if ss == [] then [] else [ss[0].node] + Roots(ss[1..])
  }

  function NodesBelow(ss: seq<Shape>): (r: set<Node>)
    ensures forall i :: 0 <= i < |ss| ==> ss[i].node in r && NodesBelow(ss[i].below) <= r
    decreases ss
  {
    if ss == [] then {} else
      var rest := NodesBelow(ss[1..]);
      assert forall i :: 0 < i < |ss| ==> ss[i] == ss[1..][i - 1];
      {ss[0].node} + NodesBelow(ss[0].below) + rest
  }

  function Nodes(s: Shape): set<Node> {
    {s.node} + NodesBelow(s.below)
  }

  function Contents(s: Shape): Tree
    decreases s
  {
    Tree(s.node.item, ContentsOf(s.below))
  }

  function ContentsOf(ss: seq<Shape>): (r: seq<Tree>)
    ensures |r| == |ss| && forall i :: 0 <= i < |ss| ==> r[i] == Contents(ss[i])
    decreases ss
  {
    if ss == [] then [] else [Contents(ss[0])] + ContentsOf(ss[1..])
  }

  /** The next links alone, at every depth: all that copying goes by. */
  ghost predicate Chains(s: Shape)
    reads Nodes(s)
    decreases s
  {
    s.node.child == At(Roots(s.below), 0) && Nexts(Roots(s.below)) && forall i :: 0 <= i < |s.below| ==> Chains(s.below[i])
  }

  /** No node is in two of these trees, or twice in one. */
  ghost predicate Separate(ss: seq<Shape>) {
    forall i, j :: 0 <= i < j < |ss| ==> Nodes(ss[i]) !! Nodes(ss[j])
  }

  /** A tree that is linked as the list operations want it, at every depth. */
  ghost predicate Whole(s: Shape)
    reads s.node`child, s.node`kids, NodesBelow(s.below)
    decreases s
  {
    var kids := Roots(s.below);
    s.node !in NodesBelow(s.below) && Separate(s.below) && s.node.kids == kids &&
    Linked(s.node.child, kids) && (kids != [] ==> kids[0].prev == kids[|kids| - 1]) &&
    forall i :: 0 <= i < |s.below| ==> Whole(s.below[i])
  }

  /** Such a node has a child list that the edits can go on with. */
  lemma WholeIsValid(s: Shape)
    requires Whole(s)
    ensures s.node.Valid() && forall i :: 0 <= i < |s.below| ==> Whole(s.below[i])
  {
  }

  lemma {:induction false} BelowAppended(ss: seq<Shape>, s: Shape)
    ensures Roots(ss + [s]) == Roots(ss) + [s.node]
    ensures NodesBelow(ss + [s]) == NodesBelow(ss) + Nodes(s)
    ensures ContentsOf(ss + [s]) == ContentsOf(ss) + [Contents(s)]
    decreases |ss|
  {
    if ss == [] {
      assert [s][1..] == [] && ss + [s] == [s];
    } else {
      BelowAppended(ss[1..], s);
      assert (ss + [s])[0] == ss[0] && (ss + [s])[1..] == ss[1..] + [s];
    }
  }

  /** The copies made so far, hanging below the new node. */
  ghost predicate Copied(copy: Node, next: Node?, done: seq<Shape>)
    reads copy`child, NodesBelow(done)
  {
    copy !in NodesBelow(done) && Separate(done) && Tip(copy.child, next, Roots(done)) &&
    (next != null ==> next.next == null) && forall i :: 0 <= i < |done| ==> Whole(done[i])
  }

  /** The links that a turn sets are outside the copies made before, but for their roots. */
  lemma RootsOnly(copy: Node, next: Node?, done: seq<Shape>, i: nat)
    requires Copied(copy, next, done) && i < |done|
    ensures copy !in Nodes(done[i]) && Nodes(done[i]) <= NodesBelow(done)
    ensures next != null ==> done != [] && next == done[|done| - 1].node && next !in NodesBelow(done[i].below)
  {
    hide Whole;
    hide Opened;
    hide Distinct;
    hide NodesBelow;
    hide Roots;
    var last := |done| - 1;
    assert next == done[last].node;
    LastRoot(copy, next, done);
    if i < last { assert Nodes(done[i]) !! Nodes(done[last]); }
  }

  /** The last tree does not lead back to its root. */
  lemma LastRoot(copy: Node, next: Node?, done: seq<Shape>)
    requires Copied(copy, next, done) && done != []
    ensures var last := done[|done| - 1]; last.node !in NodesBelow(last.below)
  {
    hide Linked;
    hide NodesBelow;
    hide Roots;
    assert Whole(done[|done| - 1]);
  }

  lemma StillSeparate(done: seq<Shape>, c: Shape)
    requires Separate(done) && Nodes(c) !! NodesBelow(done)
    ensures Separate(done + [c])
  {
    forall i | 0 <= i < |done|
      ensures Nodes(done[i]) !! Nodes(c)
    {
      assert Nodes(done[i]) <= NodesBelow(done);
    }
  }

  /** A node goes behind the last one of an open chain. */
  method LinkChild(copy: Node, next: Node?, newchild: Node, ghost out: seq<Node>)
    requires Tip(copy.child, next, out) && copy !in out && newchild !in out && newchild != copy
    modifies copy`child, (if next == null then {} else {next})`next, newchild`prev
    ensures Tip(copy.child, newchild, out + [newchild])
  {
    if next != null {
      next.next := newchild;
      newchild.prev := next;
    } else {
      copy.child := newchild;
    }
    AddOpened(out, newchild);
  }

  /** None of these trees is reached below its root by the links that a turn sets. */
  ghost predicate Outside(copy: Node, next: Node?, newchild: Node, s: Shape) {
    copy != s.node && copy !in NodesBelow(s.below) && newchild !in NodesBelow(s.below) &&
    (next != null ==> next !in NodesBelow(s.below))
  }

  lemma AllOutside(copy: Node, next: Node?, done: seq<Shape>, c: Shape)
    requires Copied(copy, next, done) && Whole(c) && Nodes(c) !! NodesBelow(done) && copy !in Nodes(c)
    ensures Outside(copy, next, c.node, c) && forall i :: 0 <= i < |done| ==> Outside(copy, next, c.node, done[i])
  {
    hide Linked;
    hide Opened;
    hide Distinct;
    forall i | 0 <= i < |done|
      ensures Outside(copy, next, c.node, done[i])
    {
      RootsOnly(copy, next, done, i);
    }
    if next != null { RootsOnly(copy, next, done, |done| - 1); }
  }

  lemma NewRoot(copy: Node, next: Node?, done: seq<Shape>, c: Shape)
    requires Copied(copy, next, done) && Nodes(c) !! NodesBelow(done) && copy !in Nodes(c)
    ensures Tip(copy.child, next, Roots(done)) && copy !in Roots(done) && c.node !in Roots(done) && c.node != copy && c.node != next
    ensures Separate(done) && forall i :: 0 <= i < |done| ==> Whole(done[i])
  {
    hide Linked;
    hide Opened;
    hide Distinct;
    hide Whole;
    if next != null { RootsOnly(copy, next, done, |done| - 1); }
  }

  lemma {:induction false} BelowAllocated(ss: seq<Shape>)
    ensures forall n :: n in NodesBelow(ss) ==> allocated(n)
    decreases ss
  {
    if ss != [] {
      BelowAllocated(ss[0].below);
      BelowAllocated(ss[1..]);
    }
  }

  /** One turn: a copy goes behind the last one. */
  method Hang(copy: Node, next: Node?, newchild: Node, ghost done: seq<Shape>, ghost c: Shape)
    requires Copied(copy, next, done) && Whole(c) && c.node == newchild && newchild.next == null
    requires Nodes(c) !! NodesBelow(done) && copy !in Nodes(c)
    modifies copy`child, (if next == null then {} else {next})`next, newchild`prev
    ensures Copied(copy, newchild, done + [c])
  {
    hide Whole;
    hide Tip;
    hide NodesBelow;
    hide Roots;
    hide Separate;
    AllOutside(copy, next, done, c);
    NewRoot(copy, next, done, c);
    BelowAppended(done, c);
    StillSeparate(done, c);
    BelowAllocated(c.below);
    forall i | 0 <= i < |done|
      ensures forall n :: n in NodesBelow(done[i].below) ==> allocated(n)
    {
      BelowAllocated(done[i].below);
    }
    LinkChild(copy, next, newchild, Roots(done));
    assert Whole(c);
    assert forall i :: 0 <= i < |done| ==> Whole(done[i]);
  }

  lemma ClosedLinks(head: Node?, next: Node?, out: seq<Node>)
    requires Tip(head, next, out) && (next != null ==> next.next == null)
    ensures Linked(head, out) && forall i :: 0 < i < |out| ==> out[i] != out[0]
  {
  }

  lemma AloneWhole(copy: Node)
    requires copy.child == null && copy.kids == []
    ensures Whole(Shape(copy, [])) && NodesBelow([]) == {} && ContentsOf([]) == []
  {
  }

  lemma HeadOutside(copy: Node, next: Node?, done: seq<Shape>, i: nat)
    requires Copied(copy, next, done) && i < |done|
    ensures copy.child == done[0].node && copy.child !in NodesBelow(done[i].below) && copy !in Nodes(done[i])
  {
    hide Linked;
    hide Opened;
    hide Distinct;
    RootsOnly(copy, next, done, i);
    if i > 0 { assert Nodes(done[0]) !! Nodes(done[i]); }
  }

  /** The first node of an open chain gets the last one for its prev. */
  method CloseRing(copy: Node, next: Node?, ghost out: seq<Node>)
    requires Tip(copy.child, next, out) && (next != null ==> next.next == null) && copy !in out
    modifies copy`kids, (if copy.child == null then {} else {copy.child})`prev
    ensures copy.kids == out && Linked(copy.child, out) && (out != [] ==> out[0].prev == out[|out| - 1])
  {
    ClosedLinks(copy.child, next, out);
    if copy.child != null {
      copy.child.prev := next;
    }
    copy.kids := out;
  }

  lemma MakeWhole(copy: Node, done: seq<Shape>)
    requires copy !in NodesBelow(done) && Separate(done) && copy.kids == Roots(done) && Linked(copy.child, copy.kids)
    requires (copy.kids != [] ==> copy.kids[0].prev == copy.kids[|copy.kids| - 1]) && forall i :: 0 <= i < |done| ==> Whole(done[i])
    ensures Whole(Shape(copy, done))
  {
  }

  /** The end: the first copy gets the last one for its prev. */
  method Close(copy: Node, next: Node?, ghost done: seq<Shape>)
    requires Copied(copy, next, done)
    modifies copy`kids, (if copy.child == null then {} else {copy.child})`prev
    ensures Whole(Shape(copy, done))
  {
    hide Whole;
    hide Tip;
    hide Linked;
    hide NodesBelow;
    hide Roots;
    hide Separate;
    forall i | 0 <= i < |done|
      ensures copy.child == done[0].node && copy.child !in NodesBelow(done[i].below) && copy !in Nodes(done[i])
      ensures forall n :: n in NodesBelow(done[i].below) ==> allocated(n)
    {
      HeadOutside(copy, next, done, i);
      BelowAllocated(done[i].below);
    }
    CopyNotRoot(copy, next, done);
    CloseRing(copy, next, Roots(done));
    assert forall i :: 0 <= i < |done| ==> Whole(done[i]);
    MakeWhole(copy, done);
  }

  lemma CopyNotRoot(copy: Node, next: Node?, done: seq<Shape>)
    requires Copied(copy, next, done)
    ensures copy !in Roots(done) && (copy.child != null ==> done != [] && copy.child == done[0].node)
  {
  }

  lemma ChainOf(s: Shape, i: nat)
    requires Chains(s) && i < |s.below|
    ensures Chains(s.below[i]) && At(Roots(s.below), i) == s.below[i].node && s.below[i].node.next == At(Roots(s.below), i + 1)
    ensures Nodes(s.below[i]) <= Nodes(s)
  {
  }

  lemma FirstChild(s: Shape)
    requires Chains(s)
    ensures s.node.child == At(Roots(s.below), 0) && forall n :: n in Nodes(s) ==> allocated(n)
  {
    BelowAllocated(s.below);
  }

  lemma NothingYet(copy: Node)
    requires copy.child == null
    ensures Copied(copy, null, []) && NodesBelow([]) == {} && ContentsOf([]) == []
  {
  }

  lemma LastCopy(copy: Node, next: Node?, done: seq<Shape>)
    requires Copied(copy, next, done)
    ensures (copy.child != null ==> copy.child in NodesBelow(done)) && (next != null ==> next in NodesBelow(done))
  {
    hide Linked;
    hide Opened;
    hide Distinct;
    CopyNotRoot(copy, next, done);
    if next != null { RootsOnly(copy, next, done, 0); }
  }

  /** One turn of the walk: copy a child with everything below it, and hang the copy behind the last one. */
  method CopyChild(copy: Node, next: Node?, child: Node, ghost below: Shape, ghost done: seq<Shape>)
    returns (newchild: Node, ghost d: Shape)
    requires below.node == child && Chains(below) && Copied(copy, next, done)
    modifies copy`child, (if next == null then {} else {next})`next
    ensures Copied(copy, newchild, done + [d]) && fresh(Nodes(d)) && Contents(d) == Contents(below)
    decreases below, 2
  {
    hide Whole;
    hide Chains;
    hide Copied;
    hide NodesBelow;
    hide Contents;
    BelowAllocated(done);
    newchild, d := Duplicate(child, true, below);
    Hang(copy, next, newchild, done, d);
  }

  method Duplicate(item: Node, recurse: bool, ghost s: Shape) returns (copy: Node, ghost c: Shape)
    requires s.node == item && Chains(s)
    ensures fresh(Nodes(c)) && c.node == copy && Whole(c) && copy.Valid() && copy.next == null
    ensures Contents(c) == if recurse then Contents(s) else Tree(item.item, [])
    decreases s, 1
  {
    hide Whole;
    hide Chains;
    hide NodesBelow;
    hide ContentsOf;
    FirstChild(s);
    copy := new Node(item.item);
    ghost var done := [];
    AloneWhole(copy);
    if recurse {
      done := DuplicateBelow(item, copy, s);
    }
    c := Shape(copy, done);
    WholeIsValid(c);
  }

  /** The walk along the next links of the original's children. */
  method DuplicateBelow(item: Node, copy: Node, ghost s: Shape) returns (ghost done: seq<Shape>)
    requires s.node == item && Chains(s) && copy !in Nodes(s) && copy.child == null && copy.next == null
    modifies copy`child, copy`kids
    ensures fresh(NodesBelow(done)) && Whole(Shape(copy, done)) && ContentsOf(done) == ContentsOf(s.below)
    decreases s, 0
  {
    hide Whole;
    hide Chains;
    hide Copied;
    hide Nodes;
    hide NodesBelow;
    hide Roots;
    hide ContentsOf;
    FirstChild(s);
    NothingYet(copy);
    done := [];
    var child := item.child;
    var next: Node? := null;
    while child != null
      invariant |done| <= |s.below| && child == At(Roots(s.below), |done|) && Chains(s)
      invariant Copied(copy, next, done) && fresh(NodesBelow(done))
      invariant ContentsOf(done) == ContentsOf(s.below[..|done|])
      decreases |s.below| - |done|
    {
      ChainOf(s, |done|);
      LastCopy(copy, next, done);
      ghost var d;
      next, d := CopyChild(copy, next, child, s.below[|done|], done);
      BelowAppended(done, d);
      ContentsGoOn(s.below, |done|);
      child := child.next;
      done := done + [d];
    }
    LastCopy(copy, next, done);
    AllCopied(s.below, |done|);
    Close(copy, next, done);
  }

  lemma ContentsGoOn(ss: seq<Shape>, i: nat)
    requires i < |ss|
    ensures ContentsOf(ss[..i + 1]) == ContentsOf(ss[..i]) + [Contents(ss[i])]
  {
    hide ContentsOf;
    hide Contents;
    hide NodesBelow;
    hide Roots;
    BelowAppended(ss[..i], ss[i]);
    assert ss[..i + 1] == ss[..i] + [ss[i]];
  }

  lemma AllCopied(ss: seq<Shape>, i: nat)
    requires i <= |ss| && At(Roots(ss), i) == null
    ensures ss[..i] == ss
  {
  }
}
