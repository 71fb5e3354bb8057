/**
  What the patches for an array or for an object do to the one they are applied to,
  whatever that holds: element by element, and name by name.
 */
module PatchTurns {
  import opened CStrings
  import opened Decimals
  import opened JsonValues
  import opened Members
  import opened Compare
  import opened Pointers
  import opened PointerDecoding
  import opened JsonPatch
  import opened PatchLocality

  // ----- patches of the root -----

  lemma RootCut(token: string)
    requires '/' !in token
    ensures LastSlash("/" + token) == Some(0) && ("/" + token)[..0] == "" && ("/" + token)[1..] == token
  {
    hide LastSlash;
    var s := "/" + token;
    assert s[0] == '/' && s[1..] == token;
    NoneBehind(s, LastSlash(s).value);
    NoneBehind(s, 0);
  }

  lemma DetachAtRoot(doc: Json, token: string, caseSensitive: bool)
    requires '/' !in token
    ensures DetachPath(doc, "/" + token, caseSensitive) == DetachChild(doc, Decode(token))
  {
    hide LastSlash;
    hide Decode;
    hide DetachChild;
    RootCut(token);
    assert Locate(doc, "", caseSensitive) == Some([]);
  }

  lemma AddAtRoot(doc: Json, token: string, x: Json, caseSensitive: bool)
    requires '/' !in token
    ensures var (status, parent) := AddChild(doc, Decode(token), x, caseSensitive);
      AddAt(doc, "/" + token, x, caseSensitive) == Patched(status, if status == 0 then parent else doc)
  {
    hide LastSlash;
    hide Decode;
    hide AddChild;
    RootCut(token);
    assert Locate(doc, "", caseSensitive) == Some([]);
  }

  // ----- patches of an array -----

  lemma IndexDecodes(i: nat)
    requires i < SIZE_LIMIT
    ensures '/' !in Decimal(i) && Decode(Decimal(i)) == Decimal(i) && DecodeIndex(Decimal(i)) == Some(i) && Decimal(i) != "-"
    ensures Encode(Decimal(i)) == Decimal(i)
  {
    DecodePlain(Decimal(i));
    EncodePlain(Decimal(i));
    DecodesDecimal(i, "");
    assert Decimal(i) + "" == Decimal(i);
  }

  lemma ReplaceItem(items: seq<Json>, i: nat, w: Json)
    requires i < |items|
    ensures var r := RemoveAt(items, i); r[..i] + [w] + r[i..] == items[i := w]
  {
  }

  lemma ReplaceItemPatch(items: seq<Json>, i: nat, w: Json, caseSensitive: bool)
    requires i < |items| && i < SIZE_LIMIT
    ensures ApplyPatch(Array(items), Compose("replace", "/" + Decimal(i), Some(w)), caseSensitive) == Patched(0, Array(items[i := w]))
  {
    hide ApplyPatch;
    hide Decode;
    hide DecodeIndex;
    hide Decimal;
    hide DetachPath;
    hide AddAt;
    var rest := RemoveAt(items, i);
    IndexDecodes(i);
    ReplacePatch(Array(items), "/" + Decimal(i), w, caseSensitive);
    DetachAtRoot(Array(items), Decimal(i), caseSensitive);
    AddAtRoot(Array(rest), Decimal(i), w, caseSensitive);
    ReplaceItem(items, i, w);
  }

  /** The patches for one element change that element. */
  lemma ItemTurn(items: seq<Json>, i: nat, u: Json, w: Json, caseSensitive: bool)
    requires i < |items| && i < SIZE_LIMIT
    ensures var r, s := ApplyAll(items[i], Create("", u, w, caseSensitive), caseSensitive),
                        ApplyAll(Array(items), Create("/" + Decimal(i), u, w, caseSensitive), caseSensitive);
      (Ok(r) <==> Ok(s)) && (Ok(s) ==> s.doc == Array(items[i := r.doc]))
  {
    hide ApplyAll;
    hide ApplyPatch;
    hide Create;
    hide Decimal;
    if Replaced(u, w) {
      CreateCases("", u, w, caseSensitive);
      CreateCases("/" + Decimal(i), u, w, caseSensitive);
      OnePatch(items[i], Compose("replace", "", Some(w)), caseSensitive);
      OnePatch(Array(items), Compose("replace", "/" + Decimal(i), Some(w)), caseSensitive);
      ReplaceRoot(items[i], w, caseSensitive);
      ReplaceItemPatch(items, i, w, caseSensitive);
    } else {
      PatchesBelow(Array(items), i, u, w, caseSensitive);
    }
  }

  lemma RemoveItemPatch(items: seq<Json>, i: nat, caseSensitive: bool)
    requires i < |items| && i < SIZE_LIMIT
    ensures ApplyPatch(Array(items), Compose("remove", Extend("", Decimal(i)), None), caseSensitive) == Patched(0, Array(RemoveAt(items, i)))
  {
    hide ApplyPatch;
    hide Decode;
    hide DecodeIndex;
    hide Decimal;
    hide Encode;
    hide DetachPath;
    IndexDecodes(i);
    assert Extend("", Decimal(i)) == "/" + Decimal(i);
    RemovePatch(Array(items), "/" + Decimal(i), caseSensitive);
    DetachAtRoot(Array(items), Decimal(i), caseSensitive);
  }

  lemma {:induction false} RemovesTurn(items: seq<Json>, index: nat, caseSensitive: bool)
    requires index <= |items| && index <= SIZE_LIMIT && (index < |items| ==> index < SIZE_LIMIT)
    ensures ApplyAll(Array(items), RemoveRest("", index, |items| - index), caseSensitive) == Patched(0, Array(items[..index]))
    decreases |items|
  {
    hide ApplyPatch;
    hide ApplyAll;
    hide Decimal;
    hide Compose;
    hide Extend;
    if index == |items| {
      assert items[..index] == items;
      OnePatch(Array(items), Null, caseSensitive);
    } else {
      var rest, patch := RemoveAt(items, index), Compose("remove", Extend("", Decimal(index)), None);
      RemoveItemPatch(items, index, caseSensitive);
      OnePatch(Array(items), patch, caseSensitive);
      RemovesTurn(rest, index, caseSensitive);
      assert rest[..index] == items[..index];
      ApplyBoth(Array(items), [patch], RemoveRest("", index, |items| - index - 1), caseSensitive);
    }
  }

  lemma AddItemPatch(items: seq<Json>, x: Json, caseSensitive: bool)
    ensures ApplyPatch(Array(items), Compose("add", Extend("", "-"), Some(x)), caseSensitive) == Patched(0, Array(items + [x]))
  {
    hide ApplyPatch;
    hide Decode;
    hide Encode;
    hide AddAt;
    EncodePlain("-");
    DecodePlain("-");
    assert Extend("", "-") == "/" + "-" && '/' !in "-";
    AddPatch(Array(items), "/" + "-", x, caseSensitive);
    AddAtRoot(Array(items), "-", x, caseSensitive);
  }

  lemma {:induction false} AddsTurn(items: seq<Json>, want: seq<Json>, i: nat, caseSensitive: bool)
    requires i <= |want|
    ensures ApplyAll(Array(items), AddRest("", want, i), caseSensitive) == Patched(0, Array(items + want[i..]))
    decreases |want| - i
  {
    hide ApplyPatch;
    hide ApplyAll;
    hide Compose;
    hide Extend;
    if i == |want| {
      assert items + want[i..] == items;
      OnePatch(Array(items), Null, caseSensitive);
    } else {
      var patch := Compose("add", Extend("", "-"), Some(want[i]));
      AddItemPatch(items, want[i], caseSensitive);
      OnePatch(Array(items), patch, caseSensitive);
      AddsTurn(items + [want[i]], want, i + 1, caseSensitive);
      assert items + [want[i]] + want[i + 1..] == items + want[i..];
      ApplyBoth(Array(items), [patch], AddRest("", want, i + 1), caseSensitive);
    }
  }

  function Min(a: nat, b: nat): nat {
    if a < b then a else b
  }

  /** What the patches for a node alone make of it. */
  function Result(now: Json, have: Json, want: Json, caseSensitive: bool): Patched {
    ApplyAll(now, Create("", have, want, caseSensitive), caseSensitive)
  }

  /** The elements from i on are patched each on its own, what is too much goes and what is missing comes. */
  ghost predicate ItemsPatched(items: seq<Json>, have: seq<Json>, want: seq<Json>, i: nat, r: seq<Json>, caseSensitive: bool) {
    |r| == |want| && |items| == |have| &&
    (forall n :: 0 <= n < i && n < Min(|have|, |want|) ==> r[n] == items[n]) &&
    (forall n :: i <= n < Min(|have|, |want|) ==> Result(items[n], have[n], want[n], caseSensitive).Patched? &&
                                                  r[n] == Result(items[n], have[n], want[n], caseSensitive).doc) &&
    forall n :: Min(|have|, |want|) <= n < |want| ==> r[n] == want[n]
  }

  lemma {:induction false} ItemsRun(items: seq<Json>, have: Json, want: seq<Json>, i: nat, caseSensitive: bool)
    requires have.Array? && |items| == |have.items| <= SIZE_LIMIT && |want| <= SIZE_LIMIT && i <= |have.items| && i <= |want|
    ensures var s := ApplyAll(Array(items), CreateItems("", have, want, i, caseSensitive), caseSensitive);
      (Ok(s) <==> forall n :: i <= n < Min(|items|, |want|) ==> Ok(Result(items[n], have.items[n], want[n], caseSensitive))) &&
      (Ok(s) ==> s.doc.Array? && ItemsPatched(items, have.items, want, i, s.doc.items, caseSensitive))
    decreases |want| - i
  {
    hide ApplyAll;
    hide Create;
    hide CreateItems;
    hide Decimal;
    hide Result;
    if i < |items| && i < |want| {
      FirstItem(items, have, want, i, caseSensitive);
      var r := Result(items[i], have.items[i], want[i], caseSensitive);
      if Ok(r) {
        ItemsRun(items[i := r.doc], have, want, i + 1, caseSensitive);
      }
    } else {
      Leftovers(items, have, want, i, caseSensitive);
    }
  }

  /** One element, and the others after it. */
  lemma FirstItem(items: seq<Json>, have: Json, want: seq<Json>, i: nat, caseSensitive: bool)
    requires have.Array? && |items| == |have.items| <= SIZE_LIMIT && i < |items| && i < |want|
    ensures var s, r := ApplyAll(Array(items), CreateItems("", have, want, i, caseSensitive), caseSensitive),
                        Result(items[i], have.items[i], want[i], caseSensitive);
      if Ok(r) then s == ApplyAll(Array(items[i := r.doc]), CreateItems("", have, want, i + 1, caseSensitive), caseSensitive) else !Ok(s)
  {
    hide ApplyAll;
    hide Create;
    hide Decimal;
    var u, w := have.items[i], want[i];
    var step, rest := Create("/" + Decimal(i), u, w, caseSensitive), CreateItems("", have, want, i + 1, caseSensitive);
    ItemTurn(items, i, u, w, caseSensitive);
    assert "" + "/" + Decimal(i) == "/" + Decimal(i);
    assert CreateItems("", have, want, i, caseSensitive) == step + rest;
    hide CreateItems;
    ApplyBoth(Array(items), step, rest, caseSensitive);
  }

  /** Behind the elements that both have, what is too much goes and what is missing comes. */
  lemma Leftovers(items: seq<Json>, have: Json, want: seq<Json>, i: nat, caseSensitive: bool)
    requires have.Array? && |items| == |have.items| <= SIZE_LIMIT && |want| <= SIZE_LIMIT
    requires i <= |have.items| && i <= |want| && (i == |items| || i == |want|)
    ensures ApplyAll(Array(items), CreateItems("", have, want, i, caseSensitive), caseSensitive) ==
      Patched(0, Array(items[..i] + want[i..]))
  {
    hide ApplyAll;
    RemovesTurn(items, i, caseSensitive);
    AddsTurn(items[..i], want, i, caseSensitive);
    ApplyBoth(Array(items), RemoveRest("", i, |items| - i), AddRest("", want, i), caseSensitive);
  }

  // ----- patches of an object -----

  /** The members as a map. */
  ghost function Held(ms: seq<Member>): (m: map<string, Json>)
    requires UniqueKeys(ms)
    ensures forall k :: k in m <==> Lookup(ms, k).Some?
    ensures forall k :: k in m ==> m[k] == Lookup(ms, k).value
  {
    assert forall i :: 0 <= i < |ms| ==> Lookup(ms, ms[i].key) == Some(ms[i].val) by {
      forall i | 0 <= i < |ms|
        ensures Lookup(ms, ms[i].key) == Some(ms[i].val)
      {
        LookupAt(ms, i);
      }
    }
    map i | 0 <= i < |ms| :: ms[i].key := ms[i].val
  }

  lemma HeldIs(ms: seq<Member>, m: map<string, Json>)
    requires UniqueKeys(ms)
    requires forall k :: (k in m <==> Lookup(ms, k).Some?) && (k in m ==> Lookup(ms, k) == Some(m[k]))
    ensures Held(ms) == m
  {
  }

  lemma WithoutNamed(ms: seq<Member>, i: nat, ks: iset<string>)
    requires Named(ms, ks) && i < |ms|
    ensures Named(RemoveAt(ms, i), ks) && Held(RemoveAt(ms, i)) == Held(ms) - {ms[i].key}
  {
    RemoveUnique(ms, i);
    forall k
      ensures Lookup(RemoveAt(ms, i), k) == if k == ms[i].key then None else Lookup(ms, k)
    {
      LookupWithout(ms, i, k);
    }
    HeldIs(RemoveAt(ms, i), Held(ms) - {ms[i].key});
  }

  lemma AppendedNamed(ms: seq<Member>, m: Member, ks: iset<string>)
    requires Named(ms, ks) && m.key in ks && Lookup(ms, m.key).None?
    ensures Named(ms + [m], ks) && Held(ms + [m]) == Held(ms)[m.key := m.val]
  {
    forall k
      ensures UniqueKeys(ms + [m]) && Lookup(ms + [m], k) == if k == m.key then Some(m.val) else Lookup(ms, k)
    {
      LookupAppended(ms, m, k);
    }
    HeldIs(ms + [m], Held(ms)[m.key := m.val]);
  }

  lemma ChangedNamed(ms: seq<Member>, i: nat, x: Json, ks: iset<string>)
    requires Named(ms, ks) && i < |ms|
    ensures var r := ms[i := Member(ms[i].key, x)]; Named(r, ks) && Held(r) == Held(ms)[ms[i].key := x]
  {
    var r := ms[i := Member(ms[i].key, x)];
    forall k
      ensures Lookup(r, k) == if k == ms[i].key then Some(x) else Lookup(ms, k)
    {
      LookupAt(r, i);
      var j := FindMember(ms, k, true);
      if k != ms[i].key && j < |ms| { LookupAt(r, j); }
    }
    HeldIs(r, Held(ms)[ms[i].key := x]);
  }

  lemma ObjectDetach(ms: seq<Member>, n: string, ks: iset<string>)
    requires Named(ms, ks) && n in ks && FoldInjective(ks)
    ensures var r := DetachChild(Object(ms), n);
      (r.Some? <==> n in Held(ms)) &&
      (r.Some? ==> r.value.0.Object? && Named(r.value.0.members, ks) && Held(r.value.0.members) == Held(ms) - {n})
  {
    FindFolded(ms, n, ks, false);
    var i := FindMember(ms, n, true);
    if i < |ms| { WithoutNamed(ms, i, ks); }
  }

  lemma ObjectAdd(ms: seq<Member>, n: string, x: Json, ks: iset<string>, caseSensitive: bool)
    requires Named(ms, ks) && n in ks && FoldInjective(ks)
    ensures var r := AddChild(Object(ms), n, x, caseSensitive);
      r.0 == 0 && r.1.Object? && Named(r.1.members, ks) && Held(r.1.members) == Held(ms)[n := x]
  {
    hide FindMember;
    hide Lookup;
    FindFolded(ms, n, ks, caseSensitive);
    var rest := OthersNamed(ms, n, x, ks);
    AppendedNamed(rest, Member(n, x), ks);
    assert AddChild(Object(ms), n, x, caseSensitive).1 == Object(rest + [Member(n, x)]);
  }

  lemma OthersNamed(ms: seq<Member>, n: string, x: Json, ks: iset<string>) returns (rest: seq<Member>)
    requires Named(ms, ks)
    ensures var i := FindMember(ms, n, true); rest == if i < |ms| then RemoveAt(ms, i) else ms
    ensures Named(rest, ks) && Lookup(rest, n).None? && Held(rest)[n := x] == Held(ms)[n := x]
  {
    var i := FindMember(ms, n, true);
    rest := if i < |ms| then RemoveAt(ms, i) else ms;
    if i < |ms| {
      WithoutNamed(ms, i, ks);
      PutAgain(Held(ms), n, x);
      assert n !in Held(rest);
    }
  }

  /** One turn of the walk over two sorted objects, with what it is about. */
  datatype Turn =
    | Surplus(key: string)
    | Missing(key: string, w: Json)
    | Common(key: string, u: Json, w: Json)

  function Patches(t: Turn, caseSensitive: bool): seq<Json> {
    match t
    case Surplus(k) => [Compose("remove", Extend("", k), None)]
    case Missing(k, w) => [Compose("add", Extend("", k), Some(w))]
    case Common(k, u, w) => Create(Extend("", k), u, w, caseSensitive)
  }

  /** What the patches of a turn do to an object, whatever it holds; None if one of them fails. */
  ghost function Effect(m: map<string, Json>, t: Turn, caseSensitive: bool): Option<map<string, Json>> {
    var d := Decoded(t.key);
    match t
    case Surplus(k) => if d in m then Some(m - {d}) else None
    case Missing(k, w) => Some(m[d := w])
    case Common(k, u, w) =>
      if Replaced(u, w) then if d in m then Some(m[d := w]) else None
      else if Create("", u, w, caseSensitive) == [] then Some(m)
      else if k !in m then None
      else
        var r := Result(m[k], u, w, caseSensitive);
        if Ok(r) then Some(m[k := r.doc]) else None
  }

  ghost predicate Shows(r: Patched, e: Option<map<string, Json>>, ks: iset<string>) {
    (Ok(r) <==> e.Some?) && (Ok(r) ==> r.doc.Object? && Named(r.doc.members, ks) && Held(r.doc.members) == e.value)
  }

  lemma NameToken(k: string)
    ensures Extend("", k) == "/" + Encode(k) && '/' !in Encode(k) && Extend("", k) != ""
  {
  }

  lemma SurplusShows(ms: seq<Member>, k: string, ks: iset<string>, caseSensitive: bool)
    requires Named(ms, ks) && FoldInjective(ks) && Decoded(k) in ks
    ensures Shows(ApplyAll(Object(ms), Patches(Surplus(k), caseSensitive), caseSensitive), Effect(Held(ms), Surplus(k), caseSensitive), ks)
  {
    hide ApplyPatch;
    hide ApplyAll;
    hide DetachPath;
    hide DetachChild;
    hide Decode;
    hide Named;
    hide Compose;
    NameToken(k);
    OnePatch(Object(ms), Compose("remove", Extend("", k), None), caseSensitive);
    RemovePatch(Object(ms), Extend("", k), caseSensitive);
    DetachAtRoot(Object(ms), Encode(k), caseSensitive);
    ObjectDetach(ms, Decoded(k), ks);
  }

  lemma MissingShows(ms: seq<Member>, k: string, w: Json, ks: iset<string>, caseSensitive: bool)
    requires Named(ms, ks) && FoldInjective(ks) && Decoded(k) in ks
    ensures Shows(ApplyAll(Object(ms), Patches(Missing(k, w), caseSensitive), caseSensitive), Effect(Held(ms), Missing(k, w), caseSensitive), ks)
  {
    hide ApplyPatch;
    hide ApplyAll;
    hide AddAt;
    hide AddChild;
    hide Decode;
    hide Named;
    hide Compose;
    NameToken(k);
    OnePatch(Object(ms), Compose("add", Extend("", k), Some(w)), caseSensitive);
    AddPatch(Object(ms), Extend("", k), w, caseSensitive);
    AddAtRoot(Object(ms), Encode(k), w, caseSensitive);
    ObjectAdd(ms, Decoded(k), w, ks, caseSensitive);
  }

  lemma ReplacedShows(ms: seq<Member>, k: string, u: Json, w: Json, ks: iset<string>, caseSensitive: bool)
    requires Named(ms, ks) && FoldInjective(ks) && Decoded(k) in ks && Replaced(u, w)
    ensures Shows(ApplyAll(Object(ms), Patches(Common(k, u, w), caseSensitive), caseSensitive), Effect(Held(ms), Common(k, u, w), caseSensitive), ks)
  {
    hide ApplyPatch;
    hide ApplyAll;
    hide Compose;
    hide Create;
    hide Replaced;
    hide Named;
    CreateCases(Extend("", k), u, w, caseSensitive);
    OnePatch(Object(ms), Compose("replace", Extend("", k), Some(w)), caseSensitive);
    ReplaceMemberPatch(ms, k, w, ks, caseSensitive);
  }

  lemma ReplaceMemberPatch(ms: seq<Member>, k: string, w: Json, ks: iset<string>, caseSensitive: bool)
    requires Named(ms, ks) && FoldInjective(ks) && Decoded(k) in ks
    ensures var d := Decoded(k);
      Shows(ApplyPatch(Object(ms), Compose("replace", Extend("", k), Some(w)), caseSensitive),
            if d in Held(ms) then Some(Held(ms)[d := w]) else None, ks)
  {
    hide ApplyPatch;
    hide AddAt;
    hide AddChild;
    hide DetachPath;
    hide DetachChild;
    hide Decode;
    hide Compose;
    var d := Decoded(k);
    NameToken(k);
    ReplacePatch(Object(ms), Extend("", k), w, caseSensitive);
    DetachAtRoot(Object(ms), Encode(k), caseSensitive);
    ObjectDetach(ms, d, ks);
    if d in Held(ms) {
      var rest := DetachChild(Object(ms), d).value.0;
      AddAtRoot(rest, Encode(k), w, caseSensitive);
      assert rest == Object(rest.members);
      ObjectAdd(rest.members, d, w, ks, caseSensitive);
      PutAgain(Held(ms), d, w);
    }
  }

  /** No pointer leads through a name that is not there. */
  lemma AbsentFails(ms: seq<Member>, k: string, a: Json, b: Json, ks: iset<string>, caseSensitive: bool)
    requires Named(ms, ks) && (caseSensitive || FoldInjective(ks)) && k in ks && Lookup(ms, k).None? && Lifts(Extend("", k), a, b)
    ensures !Ok(ApplyPatch(Object(ms), a, caseSensitive))
  {
    hide Compose;
    hide ApplyPatch;
    hide Named;
    hide FoldInjective;
    hide Extend;
    hide Lookup;
    var op, q, value :| LiftsBy(Extend("", k), a, b, op, q, value);
    AbsentComposed(ms, k, op, q, value, ks, caseSensitive);
  }

  lemma AbsentComposed(ms: seq<Member>, k: string, op: string, q: string, value: Option<Json>, ks: iset<string>, caseSensitive: bool)
    requires Named(ms, ks) && (caseSensitive || FoldInjective(ks)) && k in ks && Lookup(ms, k).None?
    requires q != "" && q[0] == '/' && Composed(op, value)
    ensures !Ok(ApplyPatch(Object(ms), Compose(op, Extend("", k) + q, value), caseSensitive))
  {
    hide Compose;
    hide ApplyPatch;
    hide Extend;
    hide Locate;
    hide LastSlash;
    hide Named;
    hide FoldInjective;
    hide Lookup;
    hide Decode;
    hide DetachChild;
    hide AddChild;
    var path := Extend("", k) + q;
    CutBelow(Extend("", k), q);
    AbsentLocates(ms, k, q[..LastSlash(q).value], ks, caseSensitive);
    assert DetachPath(Object(ms), path, caseSensitive).None?;
    assert value.Some? ==> AddAt(Object(ms), path, value.value, caseSensitive) == Patched(9, Object(ms));
    hide DetachPath;
    hide AddAt;
    if op == "remove" {
      RemovePatch(Object(ms), path, caseSensitive);
    } else if op == "add" {
      AddPatch(Object(ms), path, value.value, caseSensitive);
    } else {
      ReplacePatch(Object(ms), path, value.value, caseSensitive);
    }
  }

  lemma AbsentLocates(ms: seq<Member>, k: string, rest: string, ks: iset<string>, caseSensitive: bool)
    requires Named(ms, ks) && (caseSensitive || FoldInjective(ks)) && k in ks && Lookup(ms, k).None? && AtEnd(rest)
    ensures Locate(Object(ms), Extend("", k) + rest, caseSensitive).None?
  {
    hide Encode;
    var p := Encode(k) + rest;
    assert Extend("", k) + rest == "/" + p && ("/" + p)[1..] == p;
    forall i | 0 <= i < |ms|
      ensures !ComparePointers(ms[i].key, p, caseSensitive)
    {
      EncodedMatches(ms[i].key, k, rest, caseSensitive);
    }
    hide ComparePointers;
    assert FindByPointer(ms, p, caseSensitive) == |ms|;
  }

  lemma NestedShows(ms: seq<Member>, k: string, u: Json, w: Json, ks: iset<string>, caseSensitive: bool)
    requires Named(ms, ks) && (caseSensitive || FoldInjective(ks)) && k in ks && !Replaced(u, w)
    ensures Shows(ApplyAll(Object(ms), Patches(Common(k, u, w), caseSensitive), caseSensitive), Effect(Held(ms), Common(k, u, w), caseSensitive), ks)
  {
    hide ApplyAll;
    hide Create;
    hide Replaced;
    hide FoldInjective;
    hide Shows;
    hide Effect;
    if Lookup(ms, k).None? { NestedAbsent(ms, k, u, w, ks, caseSensitive); } else { NestedPresent(ms, k, u, w, ks, caseSensitive); }
  }

  lemma NestedAbsent(ms: seq<Member>, k: string, u: Json, w: Json, ks: iset<string>, caseSensitive: bool)
    requires Named(ms, ks) && (caseSensitive || FoldInjective(ks)) && k in ks && !Replaced(u, w) && Lookup(ms, k).None?
    ensures Shows(ApplyAll(Object(ms), Patches(Common(k, u, w), caseSensitive), caseSensitive), Effect(Held(ms), Common(k, u, w), caseSensitive), ks)
  {
    hide ApplyPatch;
    hide Create;
    hide Replaced;
    hide Extend;
    hide FoldInjective;
    hide Lifts;
    hide Decoded;
    var patches := Create(Extend("", k), u, w, caseSensitive);
    CreateBelow(k, u, w, caseSensitive);
    if patches != [] {
      AbsentFails(ms, k, patches[0], Create("", u, w, caseSensitive)[0], ks, caseSensitive);
    }
  }

  lemma NestedPresent(ms: seq<Member>, k: string, u: Json, w: Json, ks: iset<string>, caseSensitive: bool)
    requires UniqueKeys(ms) && Named(ms, ks) && (caseSensitive || FoldInjective(ks)) && k in ks && !Replaced(u, w) && Lookup(ms, k).Some?
    ensures Shows(ApplyAll(Object(ms), Patches(Common(k, u, w), caseSensitive), caseSensitive), Effect(Held(ms), Common(k, u, w), caseSensitive), ks)
  {
    hide ApplyAll;
    hide Create;
    hide Replaced;
    hide FoldInjective;
    hide Effect;
    hide Shows;
    hide Reaches;
    hide Encode;
    hide Named;
    hide Result;
    var i := FindMember(ms, k, true);
    FoldReaches(ms, i, ks, caseSensitive);
    NestedLifted(ms, i, u, w, caseSensitive);
    ChangedShows(ms, i, Result(ms[i].val, u, w, caseSensitive), ks);
    assert k in Held(ms);
    EffectPresent(Held(ms), k, u, w, caseSensitive);
  }

  lemma NestedLifted(ms: seq<Member>, i: nat, u: Json, w: Json, caseSensitive: bool)
    requires i < |ms| && Reaches(Object(ms), i, caseSensitive) && !Replaced(u, w)
    ensures var r := Result(ms[i].val, u, w, caseSensitive);
      r.Patched? && ApplyAll(Object(ms), Patches(Common(ms[i].key, u, w), caseSensitive), caseSensitive) ==
        Patched(r.status, Object(ms[i := Member(ms[i].key, r.doc)]))
  {
    hide ApplyAll;
    hide Create;
    hide Replaced;
    hide Reaches;
    NameToken(ms[i].key);
    hide Encode;
    PatchesBelow(Object(ms), i, u, w, caseSensitive);
  }

  lemma ChangedShows(ms: seq<Member>, i: nat, r: Patched, ks: iset<string>)
    requires UniqueKeys(ms) && Named(ms, ks) && i < |ms| && r.Patched?
    ensures Shows(Patched(r.status, Object(ms[i := Member(ms[i].key, r.doc)])),
                  if Ok(r) then Some(Held(ms)[ms[i].key := r.doc]) else None, ks)
  {
    ChangedNamed(ms, i, r.doc, ks);
  }

  lemma EffectPresent(m: map<string, Json>, k: string, u: Json, w: Json, caseSensitive: bool)
    requires k in m && !Replaced(u, w)
    ensures var r := Result(m[k], u, w, caseSensitive);
      Effect(m, Common(k, u, w), caseSensitive) == if Ok(r) then Some(m[k := r.doc]) else None
  {
    hide Create;
    hide Replaced;
    hide Decoded;
    hide ApplyPatch;
    OnePatch(m[k], Null, caseSensitive);
    PutSame(m, k);
  }

  lemma PutSame<V>(m: map<string, V>, k: string)
    requires k in m
    ensures m[k := m[k]] == m
  {
  }

  lemma CreateBelow(k: string, u: Json, w: Json, caseSensitive: bool)
    requires !Replaced(u, w)
    ensures var a, b := Create(Extend("", k), u, w, caseSensitive), Create("", u, w, caseSensitive);
      |a| == |b| && forall n :: 0 <= n < |a| ==> Lifts(Extend("", k), a[n], b[n])
  {
    CreateLifts(Extend("", k), "", u, w, caseSensitive);
    assert Extend("", k) + "" == Extend("", k);
  }

  lemma FoldReaches(ms: seq<Member>, i: nat, ks: iset<string>, caseSensitive: bool)
    requires Named(ms, ks) && (caseSensitive || FoldInjective(ks)) && i < |ms|
    ensures Reaches(Object(ms), i, caseSensitive)
  {
  }

  /** The name a turn ends its paths in is one of these, decoded or not. */
  predicate EndsIn(t: Turn, names: iset<string>) {
    t.key in names && ((t.Common? && !Replaced(t.u, t.w)) || Decoded(t.key) in names)
  }

  lemma TurnShows(ms: seq<Member>, t: Turn, ks: iset<string>, caseSensitive: bool)
    requires Named(ms, ks) && FoldInjective(ks) && EndsIn(t, ks)
    ensures Shows(ApplyAll(Object(ms), Patches(t, caseSensitive), caseSensitive), Effect(Held(ms), t, caseSensitive), ks)
  {
    hide ApplyAll;
    hide Effect;
    hide Shows;
    hide Patches;
    hide FoldInjective;
    match t {
      case Surplus(k) => SurplusShows(ms, k, ks, caseSensitive);
      case Missing(k, w) => MissingShows(ms, k, w, ks, caseSensitive);
      case Common(k, u, w) =>
        if Replaced(u, w) { ReplacedShows(ms, k, u, w, ks, caseSensitive); } else { NestedShows(ms, k, u, w, ks, caseSensitive); }
    }
  }

  // ----- the whole walk -----

  function Turns(x: seq<Member>, y: seq<Member>, caseSensitive: bool): seq<Turn>
    decreases |x| + |y|
  {
    if x == [] && y == [] then [] else
      var diff := WalkSign(x, y, caseSensitive);
      if diff == 0 then [Common(x[0].key, x[0].val, y[0].val)] + Turns(x[1..], y[1..], caseSensitive)
      else if diff < 0 then [Surplus(x[0].key)] + Turns(x[1..], y, caseSensitive)
      else [Missing(y[0].key, y[0].val)] + Turns(x, y[1..], caseSensitive)
  }

  ghost function RunTurns(m: map<string, Json>, ts: seq<Turn>, caseSensitive: bool): Option<map<string, Json>>
    decreases |ts|
  {
    if ts == [] then Some(m) else
      var e := Effect(m, ts[0], caseSensitive);
      if e.None? then None else RunTurns(e.value, ts[1..], caseSensitive)
  }

  lemma FirstTurn(parent: Json, x: seq<Member>, y: seq<Member>, caseSensitive: bool)
    returns (t: Turn, x': seq<Member>, y': seq<Member>)
    requires (forall i :: 0 <= i < |x| ==> Depth(x[i].val) < Depth(parent)) && (x != [] || y != [])
    ensures |x'| + |y'| < |x| + |y| && forall i :: 0 <= i < |x'| ==> Depth(x'[i].val) < Depth(parent)
    ensures Turns(x, y, caseSensitive) == [t] + Turns(x', y', caseSensitive)
    ensures CreateMembers("", parent, x, y, caseSensitive) == Patches(t, caseSensitive) + CreateMembers("", parent, x', y', caseSensitive)
  {
    hide Create;
    hide CompareStrings;
    var diff := WalkSign(x, y, caseSensitive);
    x', y' := if diff <= 0 then x[1..] else x, if diff >= 0 then y[1..] else y;
    t := if diff == 0 then Common(x[0].key, x[0].val, y[0].val)
      else if diff < 0 then Surplus(x[0].key) else Missing(y[0].key, y[0].val);
  }

  /** The patches for an object do, turn by turn, what the effects say. */
  lemma {:induction false} WalkShows(parent: Json, ms: seq<Member>, x: seq<Member>, y: seq<Member>, ks: iset<string>, caseSensitive: bool)
    requires forall i :: 0 <= i < |x| ==> Depth(x[i].val) < Depth(parent)
    requires Named(ms, ks) && FoldInjective(ks)
    requires var ts := Turns(x, y, caseSensitive); forall n :: 0 <= n < |ts| ==> EndsIn(ts[n], ks)
    ensures Shows(ApplyAll(Object(ms), CreateMembers("", parent, x, y, caseSensitive), caseSensitive),
                  RunTurns(Held(ms), Turns(x, y, caseSensitive), caseSensitive), ks)
    decreases |x| + |y|
  {
    hide ApplyAll;
    hide Effect;
    hide Patches;
    hide FoldInjective;
    hide EndsIn;
    if x == [] && y == [] {
      OnePatch(Object(ms), Null, caseSensitive);
    } else {
      var t, x', y' := FirstTurn(parent, x, y, caseSensitive);
      hide CreateMembers;
      hide Turns;
      hide Named;
      var ts, ts' := Turns(x, y, caseSensitive), Turns(x', y', caseSensitive);
      assert ts[0] == t && ts[1..] == ts';
      TurnShows(ms, t, ks, caseSensitive);
      ApplyBoth(Object(ms), Patches(t, caseSensitive), CreateMembers("", parent, x', y', caseSensitive), caseSensitive);
      var r := ApplyAll(Object(ms), Patches(t, caseSensitive), caseSensitive);
      if Ok(r) {
        assert forall n :: 0 <= n < |ts'| ==> ts'[n] == ts[n + 1];
        assert r.doc == Object(r.doc.members);
        WalkShows(parent, r.doc.members, x', y', ks, caseSensitive);
      }
    }
  }
}
