/**
  JSON trees as cJSON holds them, and what a tree means: objects are maps from
  keys to values, so two trees with the same meaning differ in member order only.
 */
module JsonValues {
  datatype Option<+T> = None | Some(value: T)

  /** A cJSON item. Members keep the order of the child list. */
  datatype Json =
    | Null
    | False
    | True
    | Number(n: int)
    | String(s: string)
    | Array(items: seq<Json>)
    | Object(members: seq<Member>)

  datatype Member = Member(key: string, val: Json)

  /** The meaning of a tree, independent of member order. */
  datatype Value =
    | VNull
    | VFalse
    | VTrue
    | VNumber(n: int)
    | VString(s: string)
    | VArray(items: seq<Value>)
    | VObject(m: map<string, Value>)

  predicate UniqueKeys(ms: seq<Member>) {
    forall i, j :: 0 <= i < j < |ms| ==> ms[i].key != ms[j].key
  }

  function Meaning(j: Json): Value
    decreases j
  {
    match j
    case Null => VNull
    case False => VFalse
    case True => VTrue
    case Number(n) => VNumber(n)
    case String(s) => VString(s)
    case Array(items) => VArray(ItemsMeaning(items))
    case Object(ms) => VObject(MembersMeaning(ms))
  }

  function ItemsMeaning(items: seq<Json>): (vs: seq<Value>)
    ensures |vs| == |items|
    ensures forall i :: 0 <= i < |items| ==> vs[i] == Meaning(items[i])
    decreases items
  {
    if items == [] then [] else [Meaning(items[0])] + ItemsMeaning(items[1..])
  }

  /** The first member of a key is the one get_object_item finds. */
  function MembersMeaning(ms: seq<Member>): (m: map<string, Value>)
    decreases ms
  {
    if ms == [] then map[] else
      MembersMeaning(ms[1..])[ms[0].key := Meaning(ms[0].val)]
  }

  lemma {:induction false} MemberMeaning(ms: seq<Member>, i: nat)
    requires UniqueKeys(ms) && i < |ms|
    ensures ms[i].key in MembersMeaning(ms)
    ensures MembersMeaning(ms)[ms[i].key] == Meaning(ms[i].val)
  {
    if i > 0 { MemberMeaning(ms[1..], i - 1); }
  }

  lemma ConsMeaning(ms: seq<Member>)
    requires ms != []
    ensures MembersMeaning(ms) == MembersMeaning(ms[1..])[ms[0].key := Meaning(ms[0].val)]
  {
  }

  lemma PutBehind<V>(m: map<string, V>, p: map<string, V>, k: string, v: V)
    ensures (m + p)[k := v] == m + p[k := v]
  {
  }

  lemma {:induction false} MembersMeaningConcat(a: seq<Member>, b: seq<Member>)
    ensures MembersMeaning(a + b) == MembersMeaning(b) + MembersMeaning(a)
  {
    if a == [] {
      assert a + b == b;
    } else {
      var ab := a + b;
      ConsMeaning(a);
      ConsMeaning(ab);
      hide MembersMeaning;
      hide Meaning;
      MembersMeaningConcat(a[1..], b);
      assert ab[1..] == a[1..] + b && ab[0] == a[0];
      PutBehind(MembersMeaning(b), MembersMeaning(a[1..]), a[0].key, Meaning(a[0].val));
    }
  }

  // ----- well-formed trees -----

  function Max(a: nat, b: nat): nat {
    if a < b then b else a
  }

  /** How deeply arrays and objects nest. */
  function Depth(j: Json): nat
    decreases j
  {
    match j
    case Array(items) => 1 + ItemsDepth(items)
    case Object(ms) => 1 + MembersDepth(ms)
    case _ => 0
  }

  function ItemsDepth(items: seq<Json>): (d: nat)
    ensures forall i :: 0 <= i < |items| ==> Depth(items[i]) <= d
    decreases items
  {
    if items == [] then 0 else Max(Depth(items[0]), ItemsDepth(items[1..]))
  }

  function MembersDepth(ms: seq<Member>): (d: nat)
    ensures forall i :: 0 <= i < |ms| ==> Depth(ms[i].val) <= d
    decreases ms
  {
    if ms == [] then 0 else Max(Depth(ms[0].val), MembersDepth(ms[1..]))
  }

  /** No object in the tree repeats a key. */
  predicate Unique(j: Json)
    decreases j
  {
    match j
    case Array(items) => forall i :: 0 <= i < |items| ==> Unique(items[i])
    case Object(ms) => UniqueKeys(ms) && forall i :: 0 <= i < |ms| ==> Unique(ms[i].val)
    case _ => true
  }

  lemma UniqueTail(ms: seq<Member>)
    requires Unique(Object(ms)) && ms != []
    ensures Unique(Object(ms[1..])) && Unique(ms[0].val)
  {
  }
}
