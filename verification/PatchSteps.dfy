/**
  What the patches for an object do to the list of its members in the case-sensitive
  functions, whatever their names: taking a member out ignores case all the same,
  so among names that differ in case only the first one goes.
 */
module PatchSteps {
  import opened CStrings
  import opened JsonValues
  import opened Members
  import opened Pointers
  import opened PointerDecoding
  import opened JsonPatch
  import opened PatchLocality
  import opened PatchTurns

  // ----- what a turn does to the members -----

  /** Takes out the first name that is the same but for case. */
  function Popped(ms: seq<Member>, k: string): Option<seq<Member>> {
    var i := FindMember(ms, k, false);
    if i < |ms| then Some(RemoveAt(ms, i)) else None
  }

  /** Puts the value at the end, in the place of one under exactly that name. */
  function Appended(ms: seq<Member>, k: string, w: Json): seq<Member> {
    var i := FindMember(ms, k, true);
    (if i < |ms| then RemoveAt(ms, i) else ms) + [Member(k, w)]
  }

  /** What the patches of a turn make of the members; None if one of them fails. */
  function Stepped(ms: seq<Member>, t: Turn): Option<seq<Member>> {
    match t
    case Surplus(k) => Popped(ms, k)
    case Missing(k, w) => Some(Appended(ms, k, w))
    case Common(k, u, w) =>
      if Replaced(u, w) then
        var r := Popped(ms, k);
        if r.None? then None else Some(Appended(r.value, k, w))
      else if Create("", u, w, true) == [] then Some(ms)
      else
        var i := FindMember(ms, k, true);
        if i == |ms| then None else
          var r := Result(ms[i].val, u, w, true);
          if Ok(r) then Some(ms[i := Member(k, r.doc)]) else None
  }

  function Run(ms: seq<Member>, ts: seq<Turn>): Option<seq<Member>>
    decreases |ts|
  {
    if ts == [] then Some(ms) else
      var r := Stepped(ms, ts[0]);
      if r.None? then None else Run(r.value, ts[1..])
  }

  predicate Detaches(t: Turn) {
    t.Surplus? || (t.Common? && Replaced(t.u, t.w))
  }

  predicate Adds(t: Turn) {
    t.Missing? || (t.Common? && Replaced(t.u, t.w))
  }

  predicate Keeps(t: Turn) {
    t.Common? && !Replaced(t.u, t.w)
  }

  /** The name in which its paths end, if they do end in one, survives the decoder. */
  predicate Ends(t: Turn) {
    Keeps(t) || Survives(t.key)
  }

  ghost predicate Gives(r: Patched, e: Option<seq<Member>>) {
    (Ok(r) <==> e.Some?) && (Ok(r) ==> r.doc == Object(e.value))
  }

  lemma TurnGives(ms: seq<Member>, t: Turn)
    requires UniqueKeys(ms) && Ends(t)
    ensures Gives(ApplyAll(Object(ms), Patches(t, true), true), Stepped(ms, t))
  {
    hide ApplyAll;
    hide Patches;
    hide Stepped;
    hide Gives;
    hide Survives;
    match t {
      case Surplus(k) => SurplusGives(ms, k);
      case Missing(k, w) => MissingGives(ms, k, w);
      case Common(k, u, w) => if Replaced(u, w) { ReplacedGives(ms, k, u, w); } else { NestedGives(ms, k, u, w); }
    }
  }

  lemma SurplusGives(ms: seq<Member>, k: string)
    requires Survives(k)
    ensures Gives(ApplyAll(Object(ms), Patches(Surplus(k), true), true), Stepped(ms, Surplus(k)))
  {
    hide ApplyPatch;
    hide ApplyAll;
    hide DetachPath;
    hide Decode;
    hide Survives;
    hide Compose;
    NameToken(k);
    SurvivingStays(k);
    OnePatch(Object(ms), Compose("remove", Extend("", k), None), true);
    RemovePatch(Object(ms), Extend("", k), true);
    DetachAtRoot(Object(ms), Encode(k), true);
  }

  lemma MissingGives(ms: seq<Member>, k: string, w: Json)
    requires Survives(k)
    ensures Gives(ApplyAll(Object(ms), Patches(Missing(k, w), true), true), Stepped(ms, Missing(k, w)))
  {
    hide ApplyPatch;
    hide ApplyAll;
    hide AddAt;
    hide Decode;
    hide Survives;
    hide Compose;
    NameToken(k);
    SurvivingStays(k);
    OnePatch(Object(ms), Compose("add", Extend("", k), Some(w)), true);
    AddPatch(Object(ms), Extend("", k), w, true);
    AddAtRoot(Object(ms), Encode(k), w, true);
  }

  lemma ReplacedGives(ms: seq<Member>, k: string, u: Json, w: Json)
    requires Survives(k) && Replaced(u, w)
    ensures Gives(ApplyAll(Object(ms), Patches(Common(k, u, w), true), true), Stepped(ms, Common(k, u, w)))
  {
    hide ApplyPatch;
    hide ApplyAll;
    hide DetachPath;
    hide AddAt;
    hide Decode;
    hide Survives;
    hide Compose;
    hide Create;
    hide Replaced;
    NameToken(k);
    SurvivingStays(k);
    CreateCases(Extend("", k), u, w, true);
    OnePatch(Object(ms), Compose("replace", Extend("", k), Some(w)), true);
    ReplacePatch(Object(ms), Extend("", k), w, true);
    DetachAtRoot(Object(ms), Encode(k), true);
    var r := Popped(ms, k);
    if r.Some? { AddAtRoot(Object(r.value), Encode(k), w, true); }
  }

  lemma NestedGives(ms: seq<Member>, k: string, u: Json, w: Json)
    requires UniqueKeys(ms) && !Replaced(u, w)
    ensures Gives(ApplyAll(Object(ms), Patches(Common(k, u, w), true), true), Stepped(ms, Common(k, u, w)))
  {
    hide ApplyPatch;
    hide Create;
    hide Replaced;
    hide Extend;
    hide Lifts;
    hide Reaches;
    hide FoldInjective;
    var patches := Create(Extend("", k), u, w, true);
    var i := FindMember(ms, k, true);
    CreateBelow(k, u, w, true);
    OnePatch(Object(ms), Null, true);
    if patches != [] && i < |ms| {
      FoldReaches(ms, i, Around(ms, k), true);
      NestedLifted(ms, i, u, w, true);
    } else if patches != [] {
      AbsentFails(ms, k, patches[0], Create("", u, w, true)[0], Around(ms, k), true);
    }
  }

  /** The names of these members, and this one. */
  ghost function Around(ms: seq<Member>, k: string): iset<string> {
    iset n | n == k || Lookup(ms, n).Some?
  }

  lemma WithoutOne(ms: seq<Member>, i: nat)
    requires UniqueKeys(ms) && i < |ms|
    ensures UniqueKeys(RemoveAt(ms, i))
    ensures forall n :: Lookup(RemoveAt(ms, i), n) == if n == ms[i].key then None else Lookup(ms, n)
  {
    RemoveUnique(ms, i);
    forall n
      ensures Lookup(RemoveAt(ms, i), n) == if n == ms[i].key then None else Lookup(ms, n)
    {
      LookupWithout(ms, i, n);
    }
  }

  lemma AppendedOne(ms: seq<Member>, k: string, w: Json)
    requires UniqueKeys(ms)
    ensures var r := Appended(ms, k, w);
      UniqueKeys(r) && forall n :: Lookup(r, n) == if n == k then Some(w) else Lookup(ms, n)
  {
    var i := FindMember(ms, k, true);
    var rest := if i < |ms| then RemoveAt(ms, i) else ms;
    if i < |ms| { WithoutOne(ms, i); }
    forall n
      ensures UniqueKeys(rest + [Member(k, w)]) && Lookup(rest + [Member(k, w)], n) == if n == k then Some(w) else Lookup(ms, n)
    {
      LookupAppended(rest, Member(k, w), n);
    }
  }

  lemma ChangedOne(ms: seq<Member>, i: nat, x: Json)
    requires UniqueKeys(ms) && i < |ms|
    ensures var r := ms[i := Member(ms[i].key, x)];
      UniqueKeys(r) && forall n :: Lookup(r, n) == if n == ms[i].key then Some(x) else Lookup(ms, n)
  {
    var r := ms[i := Member(ms[i].key, x)];
    forall n
      ensures Lookup(r, n) == if n == ms[i].key then Some(x) else Lookup(ms, n)
    {
      LookupAt(r, i);
      var j := FindMember(ms, n, true);
      if n != ms[i].key && j < |ms| { LookupAt(r, j); }
    }
  }

  /** What is under the names after a turn: of the others, none is new or changed. */
  lemma StepLookups(ms: seq<Member>, t: Turn)
    requires UniqueKeys(ms) && Stepped(ms, t).Some?
    ensures var r := Stepped(ms, t).value;
      UniqueKeys(r) &&
      (forall n :: n != t.key ==> Lookup(r, n).None? || Lookup(r, n) == Lookup(ms, n)) &&
      (Keeps(t) ==> forall n :: n != t.key ==> Lookup(r, n) == Lookup(ms, n)) &&
      (Adds(t) ==> Lookup(r, t.key) == Some(t.w))
  {
    hide Lookup;
    hide Create;
    hide Replaced;
    hide Result;
    hide RemoveAt;
    hide Appended;
    if Detaches(t) { WithoutOne(ms, FindMember(ms, t.key, false)); }
    if Adds(t) { AppendedOne(if Detaches(t) then Popped(ms, t.key).value else ms, t.key, t.w); }
    if Keeps(t) && Stepped(ms, t).value != ms {
      var i := FindMember(ms, t.key, true);
      ChangedOne(ms, i, Result(ms[i].val, t.u, t.w, true).doc);
    }
  }

  lemma {:induction false} WalkGives(parent: Json, ms: seq<Member>, x: seq<Member>, y: seq<Member>)
    requires forall i :: 0 <= i < |x| ==> Depth(x[i].val) < Depth(parent)
    requires UniqueKeys(ms) && forall i :: 0 <= i < |Turns(x, y, true)| ==> Ends(Turns(x, y, true)[i])
    ensures Gives(ApplyAll(Object(ms), CreateMembers("", parent, x, y, true), true), Run(ms, Turns(x, y, true)))
    decreases |x| + |y|
  {
    hide ApplyAll;
    hide Stepped;
    hide Patches;
    hide Ends;
    if x == [] && y == [] {
      OnePatch(Object(ms), Null, true);
    } else {
      var t, x', y' := FirstTurn(parent, x, y, true);
      hide CreateMembers;
      hide Turns;
      var ts, ts' := Turns(x, y, true), Turns(x', y', true);
      assert ts[0] == t && ts[1..] == ts';
      TurnGives(ms, t);
      ApplyBoth(Object(ms), Patches(t, true), CreateMembers("", parent, x', y', true), true);
      var e := Stepped(ms, t);
      if e.Some? {
        StepLookups(ms, t);
        assert forall i :: 0 <= i < |ts'| ==> ts'[i] == ts[i + 1];
        WalkGives(parent, e.value, x', y');
      }
    }
  }

  // ----- names that differ in case only, in the order of the members -----

  /** The names that fold to f. */
  function ClassOf(ms: seq<Member>, f: string): seq<string>
    decreases |ms|
  {
    if ms == [] then [] else (if Fold(ms[0].key) == f then [ms[0].key] else []) + ClassOf(ms[1..], f)
  }

  lemma {:induction false} ClassConcat(a: seq<Member>, b: seq<Member>, f: string)
    ensures ClassOf(a + b, f) == ClassOf(a, f) + ClassOf(b, f)
    decreases |a|
  {
    if a == [] {
      assert a + b == b;
    } else {
      assert (a + b)[0] == a[0] && (a + b)[1..] == a[1..] + b;
      ClassConcat(a[1..], b, f);
    }
  }

  lemma ClassOne(m: Member, f: string)
    ensures ClassOf([m], f) == if Fold(m.key) == f then [m.key] else []
  {
    assert [m][1..] == [] && ClassOf([], f) == [];
  }

  lemma ClassSplit(ms: seq<Member>, i: nat, f: string)
    requires i < |ms|
    ensures ClassOf(ms, f) == ClassOf(ms[..i], f) + (if Fold(ms[i].key) == f then [ms[i].key] else []) + ClassOf(ms[i + 1..], f)
    ensures ClassOf(RemoveAt(ms, i), f) == ClassOf(ms[..i], f) + ClassOf(ms[i + 1..], f)
  {
    assert ms == ms[..i] + ([ms[i]] + ms[i + 1..]);
    ClassConcat(ms[..i], [ms[i]] + ms[i + 1..], f);
    ClassConcat([ms[i]], ms[i + 1..], f);
    ClassConcat(ms[..i], ms[i + 1..], f);
    ClassOne(ms[i], f);
  }

  lemma {:induction false} InClass(ms: seq<Member>, n: string, f: string)
    ensures n in ClassOf(ms, f) <==> Fold(n) == f && Lookup(ms, n).Some?
    decreases |ms|
  {
    if ms != [] { InClass(ms[1..], n, f); }
  }

  predicate NoDup(s: seq<string>) {
    forall i, j :: 0 <= i < j < |s| ==> s[i] != s[j]
  }

  lemma {:induction false} ClassNoDup(ms: seq<Member>, f: string)
    requires UniqueKeys(ms)
    ensures NoDup(ClassOf(ms, f))
    decreases |ms|
  {
    if ms != [] {
      ClassNoDup(ms[1..], f);
      InClass(ms[1..], ms[0].key, f);
      Heads(ms, ms[0].key);
    }
  }

  function Drop(s: seq<string>, n: nat): seq<string> {
    if n <= |s| then s[n..] else []
  }

  lemma PoppedClass(ms: seq<Member>, k: string, f: string)
    requires UniqueKeys(ms) && Popped(ms, k).Some?
    ensures ClassOf(Popped(ms, k).value, f) == if Fold(k) == f then Drop(ClassOf(ms, f), 1) else ClassOf(ms, f)
    ensures Fold(k) == f ==> ClassOf(ms, f) != []
  {
    var i := FindMember(ms, k, false);
    ClassSplit(ms, i, f);
    var front := ClassOf(ms[..i], f);
    if Fold(k) == f && front != [] {
      InClass(ms[..i], front[0], f);
    }
  }

  lemma NotPopped(ms: seq<Member>, k: string)
    ensures Popped(ms, k).None? <==> ClassOf(ms, Fold(k)) == []
  {
    var f := Fold(k);
    var i := FindMember(ms, k, false);
    if i < |ms| {
      ClassSplit(ms, i, f);
    } else if ClassOf(ms, f) != [] {
      InClass(ms, ClassOf(ms, f)[0], f);
    }
  }

  lemma AppendedClass(ms: seq<Member>, k: string, w: Json, f: string)
    requires UniqueKeys(ms)
    ensures var C, C' := ClassOf(ms, f), ClassOf(Appended(ms, k, w), f);
      if Fold(k) != f then C' == C else if k !in C then C' == C + [k] else |C'| == |C|
  {
    hide Fold;
    hide ClassOf;
    hide RemoveAt;
    var i := FindMember(ms, k, true);
    var rest := if i < |ms| then RemoveAt(ms, i) else ms;
    InClass(ms, k, f);
    ClassConcat(rest, [Member(k, w)], f);
    ClassOne(Member(k, w), f);
    if i < |ms| {
      assert ms[i].key == k;
      ClassSplit(ms, i, f);
    }
  }

  /** What a turn does to the names of a class: one may go in front, and its key may come at the end. */
  lemma StepClass(ms: seq<Member>, t: Turn, f: string)
    requires UniqueKeys(ms) && Stepped(ms, t).Some?
    ensures var L, L' := ClassOf(ms, f), ClassOf(Stepped(ms, t).value, f);
      var mine := Fold(t.key) == f;
      var rest := if mine && Detaches(t) then Drop(L, 1) else L;
      (mine && Detaches(t) ==> L != []) &&
      (!(mine && Adds(t)) ==> L' == rest) &&
      (mine && Adds(t) && t.key !in rest ==> L' == rest + [t.key]) &&
      (mine && Adds(t) && t.key in rest ==> |L'| == |rest|)
  {
    hide Create;
    hide Replaced;
    hide Result;
    hide Appended;
    hide ClassOf;
    hide Fold;
    var popped := if Detaches(t) then Popped(ms, t.key).value else ms;
    if Detaches(t) {
      PoppedClass(ms, t.key, f);
      WithoutOne(ms, FindMember(ms, t.key, false));
    }
    if Adds(t) { AppendedClass(popped, t.key, t.w, f); }
    if Keeps(t) && Stepped(ms, t).value != ms {
      var i := FindMember(ms, t.key, true);
      SameKeysClass(ms, i, Result(ms[i].val, t.u, t.w, true).doc, f);
    }
  }

  lemma SameKeysClass(ms: seq<Member>, i: nat, x: Json, f: string)
    requires i < |ms|
    ensures ClassOf(ms[i := Member(ms[i].key, x)], f) == ClassOf(ms, f)
  {
    var r := ms[i := Member(ms[i].key, x)];
    assert r[..i] == ms[..i] && r[i + 1..] == ms[i + 1..];
    ClassSplit(ms, i, f);
    ClassSplit(r, i, f);
  }
}
