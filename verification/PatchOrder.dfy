/**
  Names that differ in case only, in the case-sensitive patch functions: in which
  order the members have to be for the patches from one document to another to lead
  there.
 */
module PatchOrder {
  import opened CStrings
  import opened JsonValues
  import opened Members
  import opened Compare
  import opened Pointers
  import opened PointerDecoding
  import opened JsonPatch
  import opened PatchLocality
  import opened PatchTurns
  import opened PatchRoundTrip
  import opened PatchSteps

  // ----- which names must come before which -----

  /** How many names of its class come before it. */
  function Rank(ms: seq<Member>, k: string): nat {
    |ClassOf(ms[..FindMember(ms, k, true)], Fold(k))|
  }

  /** How many of the first i turns take a name of this class out. */
  function Due(ts: seq<Turn>, i: nat, f: string): nat
    requires i <= |ts|
    decreases i
  {
    if i == 0 then 0 else (if Detaches(ts[0]) && Fold(ts[0].key) == f then 1 else 0) + Due(ts[1..], i - 1, f)
  }

  /** Behind as many names of its class as are taken out altogether. */
  predicate Stays(ms: seq<Member>, ts: seq<Turn>, n: string) {
    n in Drop(ClassOf(ms, Fold(n)), Due(ts, |ts|, Fold(n)))
  }

  /**
    Of two names that differ in case only, the one that is removed or replaced comes
    before the one that is kept; and before a name that is replaced come no more
    names of its class than are taken out before its turn.
   */
  predicate InOrder(ms: seq<Member>, ts: seq<Turn>) {
    (forall i, j :: 0 <= i < |ts| && 0 <= j < |ts| && Detaches(ts[i]) && Keeps(ts[j]) && Fold(ts[i].key) == Fold(ts[j].key) ==>
      FindMember(ms, ts[i].key, true) < FindMember(ms, ts[j].key, true)) &&
    forall i :: 0 <= i < |ts| && Detaches(ts[i]) && Adds(ts[i]) ==> Rank(ms, ts[i].key) <= Due(ts, i, Fold(ts[i].key))
  }

  /** The same, as the turns need it. */
  predicate InPlace(ms: seq<Member>, ts: seq<Turn>) {
    forall i :: 0 <= i < |ts| ==> TurnInPlace(ms, ts, i)
  }

  predicate TurnInPlace(ms: seq<Member>, ts: seq<Turn>, i: nat)
    requires i < |ts|
  {
    var k := ts[i].key;
    match ts[i]
    case Surplus(_) => !Stays(ms, ts, k)
    case Missing(_, _) => true
    case Common(_, u, w) =>
      if Replaced(u, w) then k !in Drop(ClassOf(ms, Fold(k)), Due(ts, i, Fold(k)) + 1) else Stays(ms, ts, k)
  }

  // ----- in place, the run settles everything -----

  ghost predicate Enough(ms: seq<Member>, ts: seq<Turn>) {
    forall f :: Due(ts, |ts|, f) <= |ClassOf(ms, f)|
  }

  /** What a turn that is still to come may rely on. */
  ghost predicate Awaits(ms: seq<Member>, t: Turn) {
    match t
    case Surplus(_) => true
    case Missing(k, _) => Lookup(ms, k).None?
    case Common(k, u, w) => !Replaced(u, w) ==> Lookup(ms, k).Some? && Reproduces(Lookup(ms, k).value, u, w, true)
  }

  ghost predicate OnCourse(ms: seq<Member>, ts: seq<Turn>) {
    UniqueKeys(ms) && DistinctKeys(ts) && Enough(ms, ts) && InPlace(ms, ts) && forall i :: 0 <= i < |ts| ==> Awaits(ms, ts[i])
  }

  lemma DropMore(s: seq<string>, n: nat)
    ensures Drop(Drop(s, 1), n) == Drop(s, n + 1)
  {
  }

  lemma DropAppended(s: seq<string>, k: string, n: nat)
    ensures forall x :: x in Drop(s + [k], n) ==> x == k || x in Drop(s, n)
    ensures n <= |s| ==> Drop(s + [k], n) == Drop(s, n) + [k]
  {
  }

  lemma DueStep(ts: seq<Turn>, i: nat, f: string)
    requires 0 < i <= |ts|
    ensures Due(ts, i, f) == (if Detaches(ts[0]) && Fold(ts[0].key) == f then 1 else 0) + Due(ts[1..], i - 1, f)
  {
  }

  /** A turn that is in place can be done. */
  lemma StepGoes(ms: seq<Member>, ts: seq<Turn>)
    requires OnCourse(ms, ts) && ts != []
    ensures Stepped(ms, ts[0]).Some?
  {
    hide Fold;
    hide Result;
    hide Create;
    var t := ts[0];
    var f := Fold(t.key);
    if Detaches(t) {
      DueStep(ts, |ts|, f);
      assert Due(ts, |ts|, f) <= |ClassOf(ms, f)|;
      NotPopped(ms, t.key);
    } else if Keeps(t) {
      assert Awaits(ms, t);
    }
  }

  /** The names of a class after such a turn, seen from behind. */
  lemma ClassAfter(ms: seq<Member>, ts: seq<Turn>, f: string)
    requires OnCourse(ms, ts) && ts != [] && Stepped(ms, ts[0]).Some?
    ensures var L, L', D, D' := ClassOf(ms, f), ClassOf(Stepped(ms, ts[0]).value, f), Due(ts, |ts|, f), Due(ts[1..], |ts| - 1, f);
      var last := if Adds(ts[0]) && Fold(ts[0].key) == f then [ts[0].key] else [];
      D' <= |L'| && Drop(L', D') == Drop(L, D) + last
  {
    hide Fold;
    hide ClassOf;
    hide Stepped;
    hide Due;
    hide FindMember;
    hide Reproduces;
    hide Replaced;
    var t := ts[0];
    var L, L' := ClassOf(ms, f), ClassOf(Stepped(ms, t).value, f);
    var out, mine := Detaches(t) && Fold(t.key) == f, Adds(t) && Fold(t.key) == f;
    var rest := if out then Drop(L, 1) else L;
    StepClass(ms, t, f);
    assert Due(ts, |ts|, f) <= |ClassOf(ms, f)|;
    KeyIsOut(ms, ts, f);
    assert L' == rest + if mine then [t.key] else [];
    DueStep(ts, |ts|, f);
    if out { DropMore(L, Due(ts[1..], |ts| - 1, f)); }
    if mine { DropAppended(rest, t.key, Due(ts[1..], |ts| - 1, f)); }
  }

  /** Another name that is out in time still is. */
  lemma OutAfter(ms: seq<Member>, ts: seq<Turn>, i: nat, x: string, f: string)
    requires OnCourse(ms, ts) && 0 < i < |ts| && Stepped(ms, ts[0]).Some?
    requires x != ts[0].key && x !in Drop(ClassOf(ms, f), Due(ts, i, f) + 1)
    ensures x !in Drop(ClassOf(Stepped(ms, ts[0]).value, f), Due(ts[1..], i - 1, f) + 1)
  {
    hide Fold;
    hide ClassOf;
    hide Stepped;
    hide Due;
    hide FindMember;
    hide Reproduces;
    hide Replaced;
    var t := ts[0];
    var L := ClassOf(ms, f);
    var out, mine := Detaches(t) && Fold(t.key) == f, Adds(t) && Fold(t.key) == f;
    StepClass(ms, t, f);
    KeyIsOut(ms, ts, f);
    DueStep(ts, i, f);
    if out { DropMore(L, Due(ts[1..], i - 1, f) + 1); }
    if mine { DropAppended(if out then Drop(L, 1) else L, t.key, Due(ts[1..], i - 1, f) + 1); }
  }

  /** What is to be added is not there any more. */
  lemma KeyIsOut(ms: seq<Member>, ts: seq<Turn>, f: string)
    requires OnCourse(ms, ts) && ts != []
    ensures Adds(ts[0]) && Fold(ts[0].key) == f ==>
      ts[0].key !in (if Detaches(ts[0]) then Drop(ClassOf(ms, f), 1) else ClassOf(ms, f))
  {
    hide Fold;
    hide ClassOf;
    hide Replaced;
    hide Reproduces;
    hide Lookup;
    hide Enough;
    assert TurnInPlace(ms, ts, 0) && Awaits(ms, ts[0]);
    InClass(ms, ts[0].key, f);
  }

  /** Whether a name stays is not changed by a turn, except that a turn may bring its own key. */
  lemma StillStays(ms: seq<Member>, ts: seq<Turn>, n: string)
    requires OnCourse(ms, ts) && ts != [] && Stepped(ms, ts[0]).Some?
    ensures Stays(Stepped(ms, ts[0]).value, ts[1..], n) <==> Stays(ms, ts, n) || (Adds(ts[0]) && n == ts[0].key)
  {
    hide Fold;
    hide ClassOf;
    hide Stepped;
    hide Due;
    hide OnCourse;
    ClassAfter(ms, ts, Fold(n));
  }

  lemma StaysThere(ms: seq<Member>, ts: seq<Turn>, n: string)
    requires Stays(ms, ts, n)
    ensures Lookup(ms, n).Some?
  {
    hide Fold;
    hide ClassOf;
    hide Lookup;
    InClass(ms, n, Fold(n));
    var L := ClassOf(ms, Fold(n));
    assert forall x :: x in Drop(L, Due(ts, |ts|, Fold(n))) ==> x in L;
  }

  /** What was under a name that stays still is. */
  lemma StaysSame(ms: seq<Member>, ts: seq<Turn>, n: string)
    requires OnCourse(ms, ts) && ts != [] && Stepped(ms, ts[0]).Some? && n != ts[0].key && Stays(ms, ts, n)
    ensures Lookup(Stepped(ms, ts[0]).value, n) == Lookup(ms, n)
  {
    hide Stays;
    hide Stepped;
    hide Lookup;
    StillStays(ms, ts, n);
    StaysThere(Stepped(ms, ts[0]).value, ts[1..], n);
    StepLookups(ms, ts[0]);
  }

  lemma NextInPlace(ms: seq<Member>, ts: seq<Turn>, i: nat)
    requires OnCourse(ms, ts) && 0 < i < |ts| && Stepped(ms, ts[0]).Some?
    ensures TurnInPlace(Stepped(ms, ts[0]).value, ts[1..], i - 1) && Awaits(Stepped(ms, ts[0]).value, ts[i])
  {
    hide Fold;
    hide ClassOf;
    hide Stepped;
    hide Due;
    hide Stays;
    hide Enough;
    hide Lookup;
    hide Reproduces;
    hide Replaced;
    assert TurnInPlace(ms, ts, i) && Awaits(ms, ts[i]) && ts[i].key != ts[0].key;
    StillStays(ms, ts, ts[i].key);
    if Detaches(ts[i]) && !ts[i].Surplus? { OutAfter(ms, ts, i, ts[i].key, Fold(ts[i].key)); }
    StepLookups(ms, ts[0]);
    if Keeps(ts[i]) { StaysSame(ms, ts, ts[i].key); }
  }

  lemma StepOnCourse(ms: seq<Member>, ts: seq<Turn>)
    requires OnCourse(ms, ts) && ts != [] && Stepped(ms, ts[0]).Some?
    ensures OnCourse(Stepped(ms, ts[0]).value, ts[1..])
  {
    hide Stepped;
    hide Due;
    hide ClassOf;
    hide Awaits;
    hide TurnInPlace;
    var m', rest := Stepped(ms, ts[0]).value, ts[1..];
    StepLookups(ms, ts[0]);
    forall f
      ensures Due(rest, |rest|, f) <= |ClassOf(m', f)|
    {
      ClassAfter(ms, ts, f);
    }
    forall i | 0 <= i < |rest|
      ensures TurnInPlace(m', rest, i) && Awaits(m', rest[i])
    {
      NextInPlace(ms, ts, i + 1);
    }
  }

  /** A turn in place leaves its own key as it is wanted. */
  lemma StepSettles(ms: seq<Member>, ts: seq<Turn>)
    requires OnCourse(ms, ts) && ts != [] && Stepped(ms, ts[0]).Some?
    ensures var m', t := Stepped(ms, ts[0]).value, ts[0];
      if t.Surplus? then !Stays(m', ts[1..], t.key)
      else Stays(m', ts[1..], t.key) && Lookup(m', t.key).Some? && Meaning(Lookup(m', t.key).value) == Meaning(t.w)
  {
    hide Stays;
    hide Lookup;
    hide Meaning;
    hide Create;
    hide ApplyAll;
    hide Enough;
    var t := ts[0];
    assert TurnInPlace(ms, ts, 0) && Awaits(ms, t);
    StillStays(ms, ts, t.key);
    StepLookups(ms, t);
    if Keeps(t) { NestedSettles(ms, t); }
  }

  lemma NestedSettles(ms: seq<Member>, t: Turn)
    requires UniqueKeys(ms) && Keeps(t) && Stepped(ms, t).Some? && Awaits(ms, t)
    ensures var r := Lookup(Stepped(ms, t).value, t.key); r.Some? && Meaning(r.value) == Meaning(t.w)
  {
    hide Create;
    hide ApplyPatch;
    hide Replaced;
    hide Meaning;
    var i := FindMember(ms, t.key, true);
    OnePatch(ms[i].val, Null, true);
    ChangedOne(ms, i, Result(ms[i].val, t.u, t.w, true).doc);
  }

  ghost predicate SettledIn(ms: seq<Member>, t: Turn) {
    match t
    case Surplus(k) => Lookup(ms, k).None?
    case Missing(k, w) => Lookup(ms, k).Some? && Meaning(Lookup(ms, k).value) == Meaning(w)
    case Common(k, _, w) => Lookup(ms, k).Some? && Meaning(Lookup(ms, k).value) == Meaning(w)
  }

  lemma {:induction false} RunInPlace(ms: seq<Member>, ts: seq<Turn>)
    requires OnCourse(ms, ts)
    ensures var r := Run(ms, ts);
      r.Some? && UniqueKeys(r.value) && (forall i :: 0 <= i < |ts| ==> SettledIn(r.value, ts[i])) &&
      forall n :: !IsKey(ts, n) ==> Lookup(r.value, n) == if Stays(ms, ts, n) then Lookup(ms, n) else None
    decreases |ts|
  {
    hide Lookup;
    hide Stepped;
    hide Stays;
    hide Meaning;
    if ts == [] {
      AllStay(ms);
    } else {
      StepGoes(ms, ts);
      StepOnCourse(ms, ts);
      hide OnCourse;
      var m', rest := Stepped(ms, ts[0]).value, ts[1..];
      RunInPlace(m', rest);
      StepSettles(ms, ts);
      FirstIsNew(ms, ts);
      var r := Run(m', rest).value;
      forall i | 0 <= i < |ts|
        ensures SettledIn(r, ts[i])
      {
        if i > 0 { assert ts[i] == rest[i - 1]; }
      }
      forall n | !IsKey(ts, n)
        ensures Lookup(r, n) == if Stays(ms, ts, n) then Lookup(ms, n) else None
      {
        KeyOfTail(ts, n);
        StillStays(ms, ts, n);
        if Stays(ms, ts, n) { StaysSame(ms, ts, n); }
      }
    }
  }

  lemma FirstIsNew(ms: seq<Member>, ts: seq<Turn>)
    requires OnCourse(ms, ts) && ts != []
    ensures !IsKey(ts[1..], ts[0].key)
  {
  }

  lemma AllStay(ms: seq<Member>)
    ensures forall n :: Lookup(ms, n) == if Stays(ms, [], n) then Lookup(ms, n) else None
  {
    forall n
      ensures Stays(ms, [], n) <==> Lookup(ms, n).Some?
    {
      InClass(ms, n, Fold(n));
    }
  }

  // ----- a run that settles everything was in place -----

  datatype Role = Detached | Added | Kept

  predicate Plays(t: Turn, role: Role) {
    match role
    case Detached => Detaches(t)
    case Added => Adds(t)
    case Kept => Keeps(t)
  }

  /** The keys in this class of the turns that play this part. */
  function Names(ts: seq<Turn>, role: Role, f: string): seq<string>
    decreases |ts|
  {
    if ts == [] then [] else
      (if Plays(ts[0], role) && Fold(ts[0].key) == f then [ts[0].key] else []) + Names(ts[1..], role, f)
  }

  lemma {:induction false} InNames(ts: seq<Turn>, role: Role, f: string, n: string)
    ensures n in Names(ts, role, f) <==> Fold(n) == f && exists i :: 0 <= i < |ts| && ts[i].key == n && Plays(ts[i], role)
    decreases |ts|
  {
    hide Fold;
    hide Plays;
    if ts != [] {
      var rest := ts[1..];
      InNames(rest, role, f, n);
      if i :| 0 <= i < |ts| && ts[i].key == n && Plays(ts[i], role) {
        assert i > 0 ==> rest[i - 1] == ts[i];
      }
      assert forall i :: 0 <= i < |rest| ==> rest[i] == ts[i + 1];
    }
  }

  lemma {:induction false} NamesNoDup(ts: seq<Turn>, role: Role, f: string)
    requires DistinctKeys(ts)
    ensures NoDup(Names(ts, role, f))
    decreases |ts|
  {
    if ts != [] {
      NamesNoDup(ts[1..], role, f);
      InNames(ts[1..], role, f, ts[0].key);
    }
  }

  lemma {:induction false} DueCounts(ts: seq<Turn>, f: string)
    ensures Due(ts, |ts|, f) == |Names(ts, Detached, f)|
    decreases |ts|
  {
    if ts != [] { DueCounts(ts[1..], f); }
  }

  lemma {:induction false} NoLonger(a: seq<string>, b: seq<string>)
    requires NoDup(a) && forall x :: x in a ==> x in b
    ensures |a| <= |b|
    decreases |a|
  {
    if a != [] {
      assert a[0] in b;
      var j :| 0 <= j < |b| && b[j] == a[0];
      forall x | x in a[1..]
        ensures x in RemoveAt(b, j)
      {
        assert x in a && x in b;
        var i :| 0 <= i < |b| && b[i] == x;
        assert x == RemoveAt(b, j)[if i < j then i else i - 1];
      }
      NoLonger(a[1..], RemoveAt(b, j));
    }
  }

  lemma BothNoDup(ts: seq<Turn>, role: Role, f: string)
    requires DistinctKeys(ts) && role != Kept
    ensures NoDup(Names(ts, role, f) + Names(ts, Kept, f))
  {
    hide Fold;
    hide Names;
    hide Replaced;
    NamesNoDup(ts, role, f);
    NamesNoDup(ts, Kept, f);
    var a, b := Names(ts, role, f), Names(ts, Kept, f);
    forall i, j | 0 <= i < |a| && 0 <= j < |b|
      ensures a[i] != b[j]
    {
      InNames(ts, role, f, a[i]);
      InNames(ts, Kept, f, b[j]);
    }
  }

  /** Each name that is there is taken out or kept. */
  lemma ClassCount(ms: seq<Member>, ts: seq<Turn>, f: string)
    requires UniqueKeys(ms) && DistinctKeys(ts) && AllReady(Held(ms), ts) && forall k :: Lookup(ms, k).Some? ==> IsKey(ts, k)
    ensures |ClassOf(ms, f)| == Due(ts, |ts|, f) + |Names(ts, Kept, f)|
  {
    hide Fold;
    hide Names;
    hide ClassOf;
    hide Due;
    hide Lookup;
    hide Replaced;
    hide Meaning;
    var a, L := Names(ts, Detached, f) + Names(ts, Kept, f), ClassOf(ms, f);
    forall n
      ensures n in a <==> n in L
    {
      InNames(ts, Detached, f, n);
      InNames(ts, Kept, f, n);
      InClass(ms, n, f);
      if n in a {
        var i :| 0 <= i < |ts| && ts[i].key == n && (Detaches(ts[i]) || Keeps(ts[i]));
        assert Ready(Held(ms), ts[i]);
      }
      if n in L {
        var i :| 0 <= i < |ts| && ts[i].key == n;
        assert Ready(Held(ms), ts[i]);
      }
    }
    BothNoDup(ts, Detached, f);
    ClassNoDup(ms, f);
    NoLonger(a, L);
    NoLonger(L, a);
    DueCounts(ts, f);
  }

  /** Each name that is wanted is there in the end. */
  lemma FinalCount(r: seq<Member>, ts: seq<Turn>, f: string)
    requires DistinctKeys(ts) && forall i :: 0 <= i < |ts| ==> SettledIn(r, ts[i])
    ensures |ClassOf(r, f)| >= |Names(ts, Added, f)| + |Names(ts, Kept, f)|
  {
    hide Fold;
    hide Names;
    hide ClassOf;
    hide Lookup;
    hide Replaced;
    hide Meaning;
    var a := Names(ts, Added, f) + Names(ts, Kept, f);
    forall n | n in a
      ensures n in ClassOf(r, f)
    {
      InNames(ts, Added, f, n);
      InNames(ts, Kept, f, n);
      InClass(r, n, f);
      var i :| 0 <= i < |ts| && ts[i].key == n && (Adds(ts[i]) || Keeps(ts[i]));
      assert SettledIn(r, ts[i]);
    }
    BothNoDup(ts, Added, f);
    NoLonger(a, ClassOf(r, f));
  }

  /** The names that are replaced are out before they are added again. */
  ghost predicate InTime(L: seq<string>, ts: seq<Turn>, f: string) {
    forall i :: 0 <= i < |ts| && Detaches(ts[i]) && Adds(ts[i]) && Fold(ts[i].key) == f ==>
      ts[i].key !in Drop(L, Due(ts, i, f) + 1)
  }

  /**
    No more names of a class are left than there were, without those taken out and
    with those added; as many only if none was overwritten, and then these.
   */
  lemma {:induction false} Counted(ms: seq<Member>, ts: seq<Turn>, f: string)
    requires UniqueKeys(ms) && DistinctKeys(ts) && Run(ms, ts).Some?
    ensures var L, F, A, D := ClassOf(ms, f), ClassOf(Run(ms, ts).value, f), Names(ts, Added, f), Due(ts, |ts|, f);
      |F| + D <= |L| + |A| && (|F| + D == |L| + |A| ==> F == Drop(L + A, D) && InTime(L, ts, f))
    decreases |ts|
  {
    hide Fold;
    hide ClassOf;
    hide Stepped;
    hide Replaced;
    var L, A := ClassOf(ms, f), Names(ts, Added, f);
    if ts == [] {
      assert L + A == L;
    } else {
      hide Due;
      var t, rest, m' := ts[0], ts[1..], Stepped(ms, ts[0]).value;
      StepLookups(ms, t);
      Counted(m', rest, f);
      StepClass(ms, t, f);
      DueStep(ts, |ts|, f);
      CountedStep(L, ClassOf(m', f), ts, f);
    }
  }

  /** The same for one turn and the lists of names before and after it. */
  lemma CountedStep(L: seq<string>, L': seq<string>, ts: seq<Turn>, f: string)
    requires ts != [] && DistinctKeys(ts)
    requires var t := ts[0];
      var mine := Fold(t.key) == f;
      var rest := if mine && Detaches(t) then Drop(L, 1) else L;
      (mine && Detaches(t) ==> L != []) &&
      (!(mine && Adds(t)) ==> L' == rest) &&
      (mine && Adds(t) && t.key !in rest ==> L' == rest + [t.key]) &&
      (mine && Adds(t) && t.key in rest ==> |L'| == |rest|)
    ensures var A, A', D, D' := Names(ts, Added, f), Names(ts[1..], Added, f), Due(ts, |ts|, f), Due(ts[1..], |ts| - 1, f);
      |L'| + |A'| - D' <= |L| + |A| - D &&
      (|L'| + |A'| - D' == |L| + |A| - D ==>
        Drop(L' + A', D') == Drop(L + A, D) && (InTime(L', ts[1..], f) ==> InTime(L, ts, f)))
  {
    hide Fold;
    hide Replaced;
    hide Due;
    var t, rest := ts[0], ts[1..];
    var A, A', D, D' := Names(ts, Added, f), Names(ts[1..], Added, f), Due(ts, |ts|, f), Due(ts[1..], |ts| - 1, f);
    var out, mine := Detaches(t) && Fold(t.key) == f, Adds(t) && Fold(t.key) == f;
    var M := if out then Drop(L, 1) else L;
    DueStep(ts, |ts|, f);
    hide Drop;
    assert A == if mine then [t.key] + A' else A';
    assert out ==> |M| == |L| - 1 by { OneDropped(L, A); }
    if |L'| + |A'| - D' == |L| + |A| - D {
      assert L' == if mine then M + [t.key] else M;
      assert L' + A' == M + A;
      if out {
        OneDropped(L, A);
        DropMore(L + A, D');
      }
      if InTime(L', rest, f) { StillInTime(L, L', ts, f); }
    }
  }

  lemma OneDropped(L: seq<string>, A: seq<string>)
    ensures L != [] ==> |Drop(L, 1)| == |L| - 1 && Drop(L, 1) + A == Drop(L + A, 1)
  {
  }

  lemma StillInTime(L: seq<string>, L': seq<string>, ts: seq<Turn>, f: string)
    requires ts != [] && DistinctKeys(ts) && InTime(L', ts[1..], f)
    requires var out, mine := Detaches(ts[0]) && Fold(ts[0].key) == f, Adds(ts[0]) && Fold(ts[0].key) == f;
      var M := if out then Drop(L, 1) else L;
      L' == (if mine then M + [ts[0].key] else M) && (mine ==> ts[0].key !in M)
    ensures InTime(L, ts, f)
  {
    hide Fold;
    hide Replaced;
    hide Due;
    var rest := ts[1..];
    var out, mine := Detaches(ts[0]) && Fold(ts[0].key) == f, Adds(ts[0]) && Fold(ts[0].key) == f;
    forall i | 0 <= i < |ts| && Detaches(ts[i]) && Adds(ts[i]) && Fold(ts[i].key) == f
      ensures ts[i].key !in Drop(L, Due(ts, i, f) + 1)
    {
      if i == 0 {
        DueNone(ts, f);
      } else {
        DueStep(ts, i, f);
        assert rest[i - 1] == ts[i];
        var n := Due(rest, i - 1, f) + 1;
        if out { DropMore(L, n); }
        if mine { LessDropped(if out then Drop(L, 1) else L, ts[0].key, n); }
      }
    }
  }

  lemma DueNone(ts: seq<Turn>, f: string)
    ensures Due(ts, 0, f) == 0
  {
  }

  lemma LessDropped(s: seq<string>, k: string, n: nat)
    ensures forall x :: x in Drop(s, n) ==> x in Drop(s + [k], n)
  {
    if n <= |s| { assert Drop(s + [k], n) == Drop(s, n) + [k]; }
  }

  /** A name that is nobody's key is not changed. */
  lemma {:induction false} RunElsewhere(ms: seq<Member>, ts: seq<Turn>, n: string)
    requires UniqueKeys(ms) && Run(ms, ts).Some? && !IsKey(ts, n)
    ensures Lookup(Run(ms, ts).value, n).None? || Lookup(Run(ms, ts).value, n) == Lookup(ms, n)
    decreases |ts|
  {
    hide Stepped;
    hide Lookup;
    if ts != [] {
      assert ts[0].key != n;
      KeyOfTail(ts, n);
      StepLookups(ms, ts[0]);
      RunElsewhere(Stepped(ms, ts[0]).value, ts[1..], n);
    }
  }

  /** What is kept was patched as it would have been alone. */
  lemma {:induction false} KeptReproduce(ms: seq<Member>, ts: seq<Turn>, i: nat)
    requires UniqueKeys(ms) && DistinctKeys(ts) && Run(ms, ts).Some? && i < |ts| && Keeps(ts[i]) && SettledIn(Run(ms, ts).value, ts[i])
    ensures Lookup(ms, ts[i].key).Some? && Reproduces(Lookup(ms, ts[i].key).value, ts[i].u, ts[i].w, true)
    decreases |ts|
  {
    hide Stepped;
    hide Lookup;
    hide Reproduces;
    hide Meaning;
    hide Replaced;
    var m', rest, k := Stepped(ms, ts[0]).value, ts[1..], ts[i].key;
    StepLookups(ms, ts[0]);
    if i == 0 {
      assert !IsKey(rest, k);
      RunElsewhere(m', rest, k);
      NestedShowsIt(ms, ts[0]);
    } else {
      assert rest[i - 1] == ts[i];
      KeptReproduce(m', rest, i - 1);
    }
  }

  lemma NestedShowsIt(ms: seq<Member>, t: Turn)
    requires UniqueKeys(ms) && Keeps(t) && Stepped(ms, t).Some? && SettledIn(Stepped(ms, t).value, t)
    ensures Lookup(ms, t.key).Some? && Reproduces(Lookup(ms, t.key).value, t.u, t.w, true)
  {
    hide Create;
    hide ApplyPatch;
    hide Replaced;
    hide Meaning;
    var i := FindMember(ms, t.key, true);
    if i < |ms| {
      OnePatch(ms[i].val, Null, true);
      ChangedOne(ms, i, Result(ms[i].val, t.u, t.w, true).doc);
    }
  }

  // ----- exactly then -----

  /** A duplicate of the first object, with a turn for each of its names. */
  ghost predicate Begins(now: seq<Member>, ts: seq<Turn>) {
    UniqueKeys(now) && DistinctKeys(ts) && AllReady(Held(now), ts) && forall k :: Lookup(now, k).Some? ==> IsKey(ts, k)
  }

  ghost predicate KeptReproduced(now: seq<Member>, ts: seq<Turn>) {
    forall i :: 0 <= i < |ts| && Keeps(ts[i]) ==>
      Lookup(now, ts[i].key).Some? && Reproduces(Lookup(now, ts[i].key).value, ts[i].u, ts[i].w, true)
  }

  ghost predicate RunSettles(now: seq<Member>, ts: seq<Turn>) {
    Run(now, ts).Some? && (forall i :: 0 <= i < |ts| ==> SettledIn(Run(now, ts).value, ts[i])) &&
    forall k :: !IsKey(ts, k) ==> Lookup(Run(now, ts).value, k).None?
  }

  lemma InPlaceSettles(now: seq<Member>, ts: seq<Turn>)
    requires Begins(now, ts) && InPlace(now, ts) && KeptReproduced(now, ts)
    ensures RunSettles(now, ts)
  {
    hide Due;
    hide ClassOf;
    hide Lookup;
    hide InPlace;
    hide Replaced;
    hide Reproduces;
    hide Meaning;
    hide Stays;
    forall f
      ensures Due(ts, |ts|, f) <= |ClassOf(now, f)|
    {
      ClassCount(now, ts, f);
    }
    forall i | 0 <= i < |ts|
      ensures Awaits(now, ts[i])
    {
      assert Ready(Held(now), ts[i]);
    }
    RunInPlace(now, ts);
  }

  lemma SettledInPlace(now: seq<Member>, ts: seq<Turn>, i: nat)
    requires Begins(now, ts) && RunSettles(now, ts) && i < |ts|
    ensures TurnInPlace(now, ts, i)
  {
    hide Due;
    hide ClassOf;
    hide Lookup;
    hide Replaced;
    hide Meaning;
    hide Names;
    hide Fold;
    hide Run;
    hide Drop;
    var t, f := ts[i], Fold(ts[i].key);
    var C, A, D, r := ClassOf(now, f), Names(ts, Added, f), Due(ts, |ts|, f), Run(now, ts).value;
    ClassCount(now, ts, f);
    FinalCount(r, ts, f);
    Counted(now, ts, f);
    DropFront(C, A, D);
    assert SettledIn(r, t);
    InClass(r, t.key, f);
    InNames(ts, Added, f, t.key);
    if Keeps(t) { KeyIsOne(ts, i, t.key); }
  }

  lemma DropFront(C: seq<string>, A: seq<string>, n: nat)
    requires n <= |C|
    ensures Drop(C + A, n) == Drop(C, n) + A
  {
  }

  lemma KeyIsOne(ts: seq<Turn>, i: nat, k: string)
    requires DistinctKeys(ts) && i < |ts| && ts[i].key == k
    ensures forall j :: 0 <= j < |ts| && ts[j].key == k ==> j == i
  {
  }

  /** The run settles everything exactly if the names are in place and what is kept is reproduced. */
  lemma OrderExact(now: seq<Member>, ts: seq<Turn>)
    requires Begins(now, ts)
    ensures InPlace(now, ts) && KeptReproduced(now, ts) <==> RunSettles(now, ts)
  {
    hide Begins;
    hide TurnInPlace;
    if InPlace(now, ts) && KeptReproduced(now, ts) { InPlaceSettles(now, ts); }
    if RunSettles(now, ts) {
      forall i | 0 <= i < |ts|
        ensures TurnInPlace(now, ts, i)
      {
        SettledInPlace(now, ts, i);
      }
      SettledKept(now, ts);
    }
  }

  lemma SettledKept(now: seq<Member>, ts: seq<Turn>)
    requires Begins(now, ts) && RunSettles(now, ts)
    ensures KeptReproduced(now, ts)
  {
    hide AllReady;
    hide Lookup;
    hide Reproduces;
    hide Replaced;
    hide Run;
    forall i | 0 <= i < |ts| && Keeps(ts[i])
      ensures Lookup(now, ts[i].key).Some? && Reproduces(Lookup(now, ts[i].key).value, ts[i].u, ts[i].w, true)
    {
      KeptReproduce(now, ts, i);
    }
  }

  // ----- in place is in order -----

  lemma ClassRank(ms: seq<Member>, k: string)
    requires UniqueKeys(ms) && Lookup(ms, k).Some?
    ensures var C, q := ClassOf(ms, Fold(k)), Rank(ms, k);
      q < |C| && C[q] == k && forall n: nat :: k in Drop(C, n) <==> n <= q
  {
    hide Fold;
    hide ClassOf;
    var p := FindMember(ms, k, true);
    ClassSplit(ms, p, Fold(k));
    ClassNoDup(ms, Fold(k));
    var C, q := ClassOf(ms, Fold(k)), Rank(ms, k);
    assert C[q] == k;
    forall n: nat
      ensures k in Drop(C, n) <==> n <= q
    {
      if n <= q { assert C[n..][q - n] == k; }
    }
  }

  lemma RankOrder(ms: seq<Member>, a: string, b: string)
    requires UniqueKeys(ms) && Lookup(ms, a).Some? && Lookup(ms, b).Some? && Fold(a) == Fold(b)
    ensures FindMember(ms, a, true) < FindMember(ms, b, true) <==> Rank(ms, a) < Rank(ms, b)
  {
    var i, j := FindMember(ms, a, true), FindMember(ms, b, true);
    if i < j { RankGrows(ms, i, j, Fold(a)); }
    if j < i { RankGrows(ms, j, i, Fold(a)); }
  }

  lemma RankGrows(ms: seq<Member>, i: nat, j: nat, f: string)
    requires i < j <= |ms| && Fold(ms[i].key) == f
    ensures |ClassOf(ms[..i], f)| < |ClassOf(ms[..j], f)|
  {
    hide Fold;
    hide ClassOf;
    ClassSplit(ms[..j], i, f);
    assert ms[..j][..i] == ms[..i] && ms[..j][i] == ms[i];
  }

  /** For names that go and that stay. */
  lemma RanksBefore(now: seq<Member>, ts: seq<Turn>, i: nat, j: nat)
    requires Begins(now, ts) && i < |ts| && j < |ts| && Detaches(ts[i]) && Keeps(ts[j]) && Fold(ts[i].key) == Fold(ts[j].key)
    ensures Lookup(now, ts[i].key).Some? && Lookup(now, ts[j].key).Some?
    ensures FindMember(now, ts[i].key, true) < FindMember(now, ts[j].key, true) <==> Rank(now, ts[i].key) < Rank(now, ts[j].key)
  {
    hide Fold;
    hide Lookup;
    hide Replaced;
    hide Rank;
    assert Ready(Held(now), ts[i]) && Ready(Held(now), ts[j]);
    RankOrder(now, ts[i].key, ts[j].key);
  }

  /** Where a turn is in place, seen from the rank of its key. */
  lemma TurnRank(now: seq<Member>, ts: seq<Turn>, i: nat)
    requires Begins(now, ts) && i < |ts| && !ts[i].Missing?
    ensures var k, f := ts[i].key, Fold(ts[i].key);
      Lookup(now, k).Some? && Rank(now, k) < |ClassOf(now, f)| && ClassOf(now, f)[Rank(now, k)] == k &&
      (TurnInPlace(now, ts, i) <==>
       if Keeps(ts[i]) then Due(ts, |ts|, f) <= Rank(now, k)
       else if Adds(ts[i]) then Rank(now, k) <= Due(ts, i, f)
       else Rank(now, k) < Due(ts, |ts|, f))
  {
    hide Fold;
    hide Lookup;
    hide Replaced;
    hide Rank;
    hide ClassOf;
    hide Drop;
    assert Ready(Held(now), ts[i]);
    ClassRank(now, ts[i].key);
  }

  lemma {:induction false} DueGrows(ts: seq<Turn>, i: nat, f: string)
    requires i < |ts| && Detaches(ts[i]) && Fold(ts[i].key) == f
    ensures Due(ts, i, f) < Due(ts, |ts|, f)
    decreases i
  {
    hide Fold;
    hide Replaced;
    if i > 0 { DueGrows(ts[1..], i - 1, f); }
  }

  lemma PlaceIsOrder(now: seq<Member>, ts: seq<Turn>)
    requires Begins(now, ts) && InPlace(now, ts)
    ensures InOrder(now, ts)
  {
    hide Fold;
    hide Replaced;
    hide Begins;
    hide TurnInPlace;
    hide Rank;
    hide Due;
    hide Lookup;
    forall i | 0 <= i < |ts| && !ts[i].Missing?
      ensures Keeps(ts[i]) ==> Due(ts, |ts|, Fold(ts[i].key)) <= Rank(now, ts[i].key)
      ensures Detaches(ts[i]) ==> Rank(now, ts[i].key) < Due(ts, |ts|, Fold(ts[i].key))
      ensures Detaches(ts[i]) && Adds(ts[i]) ==> Rank(now, ts[i].key) <= Due(ts, i, Fold(ts[i].key))
    {
      TurnRank(now, ts, i);
      if Detaches(ts[i]) { DueGrows(ts, i, Fold(ts[i].key)); }
    }
    forall i, j | 0 <= i < |ts| && 0 <= j < |ts| && Detaches(ts[i]) && Keeps(ts[j]) && Fold(ts[i].key) == Fold(ts[j].key)
      ensures FindMember(now, ts[i].key, true) < FindMember(now, ts[j].key, true)
    {
      RanksBefore(now, ts, i, j);
    }
  }

  /** All that go come before one that stays, so it is behind as many as go. */
  lemma KeptRank(now: seq<Member>, ts: seq<Turn>, j: nat)
    requires Begins(now, ts) && InOrder(now, ts) && j < |ts| && Keeps(ts[j])
    ensures Due(ts, |ts|, Fold(ts[j].key)) <= Rank(now, ts[j].key)
  {
    hide Fold;
    hide Replaced;
    hide Begins;
    hide TurnInPlace;
    hide Rank;
    hide Due;
    hide Lookup;
    hide Names;
    hide ClassOf;
    var f := Fold(ts[j].key);
    var C, q := ClassOf(now, f), Rank(now, ts[j].key);
    TurnRank(now, ts, j);
    forall n | n in Names(ts, Detached, f)
      ensures n in C[..q]
    {
      InNames(ts, Detached, f, n);
      var i :| 0 <= i < |ts| && ts[i].key == n && Detaches(ts[i]);
      RanksBefore(now, ts, i, j);
      TurnRank(now, ts, i);
      assert C[..q][Rank(now, n)] == n;
    }
    BeginsDistinct(now, ts);
    NamesNoDup(ts, Detached, f);
    NoLonger(Names(ts, Detached, f), C[..q]);
    DueCounts(ts, f);
  }

  lemma BeginsDistinct(now: seq<Member>, ts: seq<Turn>)
    requires Begins(now, ts)
    ensures DistinctKeys(ts)
  {
  }

  lemma GoneRank(now: seq<Member>, ts: seq<Turn>, i: nat)
    requires Begins(now, ts) && InOrder(now, ts) && i < |ts| && Detaches(ts[i])
    ensures Rank(now, ts[i].key) < Due(ts, |ts|, Fold(ts[i].key))
  {
    hide Fold;
    hide Replaced;
    hide Begins;
    hide TurnInPlace;
    hide Rank;
    hide Due;
    hide Lookup;
    hide Names;
    hide ClassOf;
    var f := Fold(ts[i].key);
    var C, q := ClassOf(now, f), Rank(now, ts[i].key);
    TurnRank(now, ts, i);
    forall n | n in Names(ts, Kept, f)
      ensures n in C[q + 1..]
    {
      InNames(ts, Kept, f, n);
      var j :| 0 <= j < |ts| && ts[j].key == n && Keeps(ts[j]);
      RanksBefore(now, ts, i, j);
      TurnRank(now, ts, j);
      assert C[q + 1..][Rank(now, n) - q - 1] == n;
    }
    BeginsCount(now, ts, f);
    NoLonger(Names(ts, Kept, f), C[q + 1..]);
  }

  lemma BeginsCount(now: seq<Member>, ts: seq<Turn>, f: string)
    requires Begins(now, ts)
    ensures NoDup(Names(ts, Kept, f)) && |ClassOf(now, f)| == Due(ts, |ts|, f) + |Names(ts, Kept, f)|
  {
    hide ClassOf;
    hide Names;
    hide NoDup;
    NamesNoDup(ts, Kept, f);
    ClassCount(now, ts, f);
  }

  lemma PlaceExactlyOrder(now: seq<Member>, ts: seq<Turn>)
    requires Begins(now, ts)
    ensures InPlace(now, ts) <==> InOrder(now, ts)
  {
    hide Fold;
    hide Replaced;
    hide Begins;
    hide TurnInPlace;
    hide InOrder;
    hide Rank;
    hide Due;
    if InPlace(now, ts) { PlaceIsOrder(now, ts); }
    if InOrder(now, ts) {
      forall i | 0 <= i < |ts|
        ensures TurnInPlace(now, ts, i)
      {
        OrderedTurn(now, ts, i);
      }
    }
  }

  lemma OrderedTurn(now: seq<Member>, ts: seq<Turn>, i: nat)
    requires Begins(now, ts) && InOrder(now, ts) && i < |ts|
    ensures TurnInPlace(now, ts, i)
  {
    hide Begins;
    hide Rank;
    hide Due;
    hide Fold;
    hide Lookup;
    hide Replaced;
    hide ClassOf;
    hide Stays;
    if !ts[i].Missing? {
      TurnRank(now, ts, i);
      if Keeps(ts[i]) { KeptRank(now, ts, i); } else { GoneRank(now, ts, i); }
    }
  }

  // ----- the round trip -----

  /** The turns of the walk over two objects, case heeded. */
  function ObjectWalk(have: Json, want: Json): seq<Turn>
    requires have.Object? && want.Object?
  {
    Turns(SortMembers(have.members, true), SortMembers(want.members, true), true)
  }

  /** In every pair of objects that the patches reach, the names of the document are in order. */
  predicate Ordered(now: Json, have: Json, want: Json)
    decreases Depth(have), 1
  {
    match (have, want)
    case (Array(x), Array(y)) =>
      now.Array? && forall i :: 0 <= i < |x| && i < |y| && i < |now.items| ==> Ordered(now.items[i], x[i], y[i])
    case (Object(_), Object(_)) =>
      now.Object? && InOrder(now.members, ObjectWalk(have, want)) && PairsOrdered(now.members, have, want)
    case _ => true
  }

  /** The same below, for what the two objects have in common. */
  predicate PairsOrdered(now: seq<Member>, have: Json, want: Json)
    requires have.Object? && want.Object?
    decreases Depth(have), 0
  {
    var x, y := have.members, want.members;
    forall i, j :: 0 <= i < |x| && 0 <= j < |y| && x[i].key == y[j].key && Lookup(now, x[i].key).Some? ==>
      Ordered(Lookup(now, x[i].key).value, x[i].val, y[j].val)
  }

  lemma {:induction false} RunUnique(ms: seq<Member>, ts: seq<Turn>)
    requires UniqueKeys(ms) && Run(ms, ts).Some?
    ensures UniqueKeys(Run(ms, ts).value)
    decreases |ts|
  {
    hide Stepped;
    if ts != [] {
      StepLookups(ms, ts[0]);
      RunUnique(Stepped(ms, ts[0]).value, ts[1..]);
    }
  }

  lemma WalkBegins(now: Json, have: Json, want: Json)
    requires now.Object? && have.Object? && want.Object? && Meaning(now) == Meaning(have)
    requires UniqueKeys(now.members) && UniqueKeys(have.members) && UniqueKeys(want.members)
    ensures TurnsOf(ObjectWalk(have, want), have.members, want.members) && Begins(now.members, ObjectWalk(have, want))
  {
    hide Lookup;
    hide MembersMeaning;
    hide SortMembers;
    hide Turns;
    var ks := KeysOf(MembersMeaning(have.members), MembersMeaning(want.members));
    NamedBy(have.members, ks);
    NamedBy(want.members, ks);
    var ts := ObjectTurns(have, want, ks, true);
    DuplicateReady(now.members, have.members, want.members, ts);
    NothingElse(now.members, have.members, want.members, ts);
  }

  lemma PatchableEnds(have: Json, want: Json)
    requires have.Object? && want.Object? && UniqueKeys(have.members) && UniqueKeys(want.members)
    requires TurnsOf(ObjectWalk(have, want), have.members, want.members) && Patchable(have, want, true)
    ensures forall i :: 0 <= i < |ObjectWalk(have, want)| ==> Ends(ObjectWalk(have, want)[i])
    ensures forall i :: 0 <= i < |ObjectWalk(have, want)| && Keeps(ObjectWalk(have, want)[i]) ==>
      Patchable(ObjectWalk(have, want)[i].u, ObjectWalk(have, want)[i].w, true)
  {
    hide Patchable;
    hide TurnsOf;
    hide ObjectWalk;
    hide Survives;
    hide Replaced;
    var ts := ObjectWalk(have, want);
    PatchableTurns(have, want, ts, true);
    forall i | 0 <= i < |ts|
      ensures Ends(ts[i]) && (Keeps(ts[i]) ==> Patchable(ts[i].u, ts[i].w, true))
    {
      assert PatchableTurn(ts[i]);
      if ts[i].Common? { EndsDecide(ts[i].u, ts[i].w, Survives(ts[i].key)); }
    }
  }

  lemma ObjectGives(now: Json, have: Json, want: Json)
    requires now.Object? && have.Object? && want.Object? && UniqueKeys(now.members)
    requires forall i :: 0 <= i < |ObjectWalk(have, want)| ==> Ends(ObjectWalk(have, want)[i])
    ensures Gives(Result(now, have, want, true), Run(now.members, ObjectWalk(have, want)))
  {
    hide ApplyAll;
    hide CreateMembers;
    hide Run;
    hide Ends;
    hide Turns;
    SortedDepth(have.members, true);
    CreateCases("", have, want, true);
    hide Create;
    var x, y := SortMembers(have.members, true), SortMembers(want.members, true);
    assert ObjectWalk(have, want) == Turns(x, y, true);
    WalkGives(have, now.members, x, y);
  }

  /** Objects: the patches lead there exactly if the run over the turns settles everything. */
  lemma ObjectSettles(now: Json, have: Json, want: Json)
    requires now.Object? && have.Object? && want.Object? && Meaning(now) == Meaning(have)
    requires UniqueKeys(now.members) && UniqueKeys(have.members) && UniqueKeys(want.members) && Patchable(have, want, true)
    ensures Reproduces(now, have, want, true) <==> RunSettles(now.members, ObjectWalk(have, want))
  {
    hide ObjectWalk;
    hide Patchable;
    hide Result;
    hide Run;
    hide MembersMeaning;
    hide Lookup;
    hide TurnsOf;
    hide Ends;
    var ts := ObjectWalk(have, want);
    WalkBegins(now, have, want);
    PatchableEnds(have, want);
    ObjectGives(now, have, want);
    var e := Run(now.members, ts);
    if e.Some? {
      RunUnique(now.members, ts);
      SettledMeans(e.value, have.members, want.members, ts);
      SettledHeld(e.value, ts);
    }
  }

  lemma SettledHeld(ms: seq<Member>, ts: seq<Turn>)
    requires UniqueKeys(ms)
    ensures AllSettled(Held(ms), ts) <==> forall i :: 0 <= i < |ts| ==> SettledIn(ms, ts[i])
  {
    hide Lookup;
    hide Meaning;
    forall i | 0 <= i < |ts|
      ensures Settled(Held(ms), ts[i]) <==> SettledIn(ms, ts[i])
    {
    }
  }

  /**
    In the case-sensitive functions, for documents with any unique names: where
    every name in which a path ends survives the decoder, the patches lead from a
    duplicate to what was wanted if and only if the duplicate is ordered for them.
   */
  lemma {:induction false} OrderedRoundTrip(duplicate: Json, have: Json, want: Json)
    requires WellFormed(duplicate) && WellFormed(have) && WellFormed(want) && Meaning(duplicate) == Meaning(have)
    requires Patchable(have, want, true)
    ensures Reproduces(duplicate, have, want, true) <==> Ordered(duplicate, have, want)
    decreases Depth(have), 1
  {
    hide Reproduces;
    hide InOrder;
    hide Patchable;
    if Replaced(have, want) || (!have.Array? && !have.Object?) {
      LeafExact(duplicate, have, want, true);
    } else if have.Array? {
      SameKindMeans(duplicate, have, want);
      PatchableItems(have, want, true);
      ItemsMeanAlike(duplicate, have);
      ArrayExact(duplicate, have, want, true);
      forall i | 0 <= i < Min(|have.items|, |want.items|)
        ensures Reproduces(duplicate.items[i], have.items[i], want.items[i], true) <==>
          Ordered(duplicate.items[i], have.items[i], want.items[i])
      {
        OrderedRoundTrip(duplicate.items[i], have.items[i], want.items[i]);
      }
    } else {
      SameKindMeans(duplicate, have, want);
      OrderedObject(duplicate, have, want);
    }
  }

  lemma {:induction false} OrderedObject(duplicate: Json, have: Json, want: Json)
    requires duplicate.Object? && have.Object? && want.Object? && Patchable(have, want, true)
    requires WellFormed(duplicate) && WellFormed(have) && WellFormed(want) && Meaning(duplicate) == Meaning(have)
    ensures Reproduces(duplicate, have, want, true) <==> Ordered(duplicate, have, want)
    decreases Depth(have), 0
  {
    hide Reproduces;
    hide InPlace;
    hide InOrder;
    hide PairsOrdered;
    hide Patchable;
    hide ObjectWalk;
    hide Lookup;
    hide RunSettles;
    hide Begins;
    hide TurnsOf;
    hide KeptReproduced;
    var m, ts := duplicate.members, ObjectWalk(have, want);
    WalkBegins(duplicate, have, want);
    ObjectSettles(duplicate, have, want);
    OrderExact(m, ts);
    PlaceExactlyOrder(m, ts);
    KeptOrdered(duplicate, have, want);
  }

  lemma {:induction false} KeptOrdered(duplicate: Json, have: Json, want: Json)
    requires duplicate.Object? && have.Object? && want.Object? && Patchable(have, want, true)
    requires WellFormed(duplicate) && WellFormed(have) && WellFormed(want) && Meaning(duplicate) == Meaning(have)
    ensures KeptReproduced(duplicate.members, ObjectWalk(have, want)) <==> PairsOrdered(duplicate.members, have, want)
    decreases Depth(have), 0, 0
  {
    hide Reproduces;
    hide Ordered;
    hide Patchable;
    hide ObjectWalk;
    hide Lookup;
    hide Replaced;
    hide TurnsOf;
    hide Begins;
    hide TurnOf;
    hide PairsOrdered;
    hide Depth;
    hide WellFormed;
    var m, ts := duplicate.members, ObjectWalk(have, want);
    assert UniqueKeys(m) && UniqueKeys(have.members) && UniqueKeys(want.members) by {
      WellFormedKeys(duplicate);
      WellFormedKeys(have);
      WellFormedKeys(want);
    }
    WalkBegins(duplicate, have, want);
    PatchableEnds(have, want);
    forall i | 0 <= i < |ts| && Keeps(ts[i])
      ensures Lookup(m, ts[i].key).Some?
      ensures Reproduces(Lookup(m, ts[i].key).value, ts[i].u, ts[i].w, true) <==> Ordered(Lookup(m, ts[i].key).value, ts[i].u, ts[i].w)
    {
      KeptParts(duplicate, have, want, ts, i);
      OrderedRoundTrip(Lookup(m, ts[i].key).value, ts[i].u, ts[i].w);
    }
    TurnPairs(m, have, want, ts);
  }

  lemma WellFormedKeys(j: Json)
    requires j.Object? && WellFormed(j)
    ensures UniqueKeys(j.members)
  {
  }

  lemma KeptParts(duplicate: Json, have: Json, want: Json, ts: seq<Turn>, i: nat)
    requires duplicate.Object? && have.Object? && want.Object?
    requires WellFormed(duplicate) && WellFormed(have) && WellFormed(want)
    requires Begins(duplicate.members, ts) && TurnsOf(ts, have.members, want.members)
    requires i < |ts| && Keeps(ts[i])
    ensures var now := Lookup(duplicate.members, ts[i].key);
      now.Some? && WellFormed(now.value) && WellFormed(ts[i].u) && WellFormed(ts[i].w) &&
      Meaning(now.value) == Meaning(ts[i].u) && Depth(ts[i].u) < Depth(have)
  {
    hide Lookup;
    hide Meaning;
    hide WellFormed;
    hide Depth;
    hide Replaced;
    assert TurnOf(ts[i], have.members, want.members) && Ready(Held(duplicate.members), ts[i]);
    PartWellFormed(duplicate, ts[i].key);
    PartWellFormed(have, ts[i].key);
    PartWellFormed(want, ts[i].key);
  }

  /** The common names, turn by turn. */
  lemma TurnPairs(m: seq<Member>, have: Json, want: Json, ts: seq<Turn>)
    requires have.Object? && want.Object? && UniqueKeys(have.members) && UniqueKeys(want.members)
    requires TurnsOf(ts, have.members, want.members)
    ensures PairsOrdered(m, have, want) <==> forall n :: 0 <= n < |ts| && Keeps(ts[n]) && Lookup(m, ts[n].key).Some? ==>
      Ordered(Lookup(m, ts[n].key).value, ts[n].u, ts[n].w)
  {
    hide Lookup;
    hide Ordered;
    hide Replaced;
    hide TurnsOf;
    hide TurnOf;
    var x, y := have.members, want.members;
    if PairsOrdered(m, have, want) {
      forall n | 0 <= n < |ts| && Keeps(ts[n]) && Lookup(m, ts[n].key).Some?
        ensures Ordered(Lookup(m, ts[n].key).value, ts[n].u, ts[n].w)
      {
        TurnMembers(ts, n, x, y);
      }
    }
    if forall n :: 0 <= n < |ts| && Keeps(ts[n]) && Lookup(m, ts[n].key).Some? ==> Ordered(Lookup(m, ts[n].key).value, ts[n].u, ts[n].w) {
      forall i, j | 0 <= i < |x| && 0 <= j < |y| && x[i].key == y[j].key && Lookup(m, x[i].key).Some?
        ensures Ordered(Lookup(m, x[i].key).value, x[i].val, y[j].val)
      {
        CommonTurn(x, y, ts, i, j);
      }
    }
  }

  lemma TurnMembers(ts: seq<Turn>, n: nat, x: seq<Member>, y: seq<Member>)
    requires TurnsOf(ts, x, y) && n < |ts| && ts[n].Common?
    ensures exists i, j :: 0 <= i < |x| && 0 <= j < |y| && x[i] == Member(ts[n].key, ts[n].u) && y[j] == Member(ts[n].key, ts[n].w)
  {
    assert TurnOf(ts[n], x, y);
    var i, j := FindMember(x, ts[n].key, true), FindMember(y, ts[n].key, true);
    assert x[i] == Member(ts[n].key, ts[n].u) && y[j] == Member(ts[n].key, ts[n].w);
  }

  lemma CommonTurn(x: seq<Member>, y: seq<Member>, ts: seq<Turn>, i: nat, j: nat)
    requires UniqueKeys(x) && UniqueKeys(y) && TurnsOf(ts, x, y)
    requires i < |x| && j < |y| && x[i].key == y[j].key
    ensures var u, w := x[i].val, y[j].val;
      (Replaced(u, w) ==> forall now :: Ordered(now, u, w)) && exists n :: 0 <= n < |ts| && ts[n] == Common(x[i].key, u, w)
  {
    LookupAt(x, i);
    LookupAt(y, j);
    hide Lookup;
    assert IsKey(ts, x[i].key);
    var n :| 0 <= n < |ts| && ts[n].key == x[i].key;
    assert TurnOf(ts[n], x, y);
  }

  // ----- one of two such names is to go -----

  function Pair(a: Member, b: Member): Json {
    Object([a, b])
  }

  lemma PairFinds(a: Member, b: Member)
    requires a.key != b.key
    ensures FindMember([a, b], a.key, true) == 0 && FindMember([a, b], b.key, true) == 1
    ensures UniqueKeys([a, b]) && MembersMeaning([a, b]) == map[a.key := Meaning(a.val), b.key := Meaning(b.val)]
  {
    var ms := [a, b];
    assert ms[1..] == [b] && [b][1..] == [];
    assert MembersMeaning([]) == map[] && MembersMeaning([b]) == map[b.key := Meaning(b.val)];
    assert ms[1].key == b.key;
  }

  lemma GoneTurns(kept: Member, gone: Member)
    requires kept.key != gone.key
    ensures var (have, want) := (Pair(kept, gone), Object([kept]));
      var ts := ObjectWalk(have, want);
      (forall i :: 0 <= i < |ts| ==> ts[i] == Surplus(gone.key) || ts[i] == Common(kept.key, kept.val, kept.val)) &&
      IsKey(ts, gone.key) && IsKey(ts, kept.key)
  {
    hide ObjectWalk;
    var have, want := Pair(kept, gone), Object([kept]);
    var x, y := have.members, want.members;
    PairFinds(kept, gone);
    WalkBegins(have, have, want);
    var ts := ObjectWalk(have, want);
    assert x[0] == kept && x[1] == gone && y[0] == kept;
    assert Lookup(x, kept.key) == Some(kept.val) && Lookup(x, gone.key) == Some(gone.val);
    assert Lookup(y, kept.key) == Some(kept.val) && Lookup(y, gone.key).None?;
    forall i | 0 <= i < |ts|
      ensures ts[i] == Surplus(gone.key) || ts[i] == Common(kept.key, kept.val, kept.val)
    {
      assert TurnOf(ts[i], x, y);
    }
  }

  /**
    Of two members whose names differ in case only one is to go: the patch takes
    away whichever comes first. So from {"A": 1, "a": 2} to {"A": 1} it leads only
    if "a" is in front.
   */
  lemma FirstNameGoes(kept: Member, gone: Member)
    requires kept.key != gone.key && Fold(kept.key) == Fold(gone.key) && Survives(gone.key)
    requires kept.val.Number? && gone.val.Number?
    ensures var (have, want) := (Pair(kept, gone), Object([kept]));
      !Reproduces(Pair(kept, gone), have, want, true) && Reproduces(Pair(gone, kept), have, want, true)
  {
    hide Reproduces;
    hide Ordered;
    hide Patchable;
    hide WellFormed;
    hide Meaning;
    hide Survives;
    hide Fold;
    PairFits(kept, gone);
    PairOrder(kept, gone);
    OrderedRoundTrip(Pair(kept, gone), Pair(kept, gone), Object([kept]));
    OrderedRoundTrip(Pair(gone, kept), Pair(kept, gone), Object([kept]));
  }

  lemma PairOrder(kept: Member, gone: Member)
    requires kept.key != gone.key && Fold(kept.key) == Fold(gone.key) && kept.val.Number?
    ensures var (have, want) := (Pair(kept, gone), Object([kept]));
      !Ordered(Pair(kept, gone), have, want) && Ordered(Pair(gone, kept), have, want)
  {
    hide ObjectWalk;
    hide Fold;
    hide InOrder;
    var have, want, other := Pair(kept, gone), Object([kept]), Pair(gone, kept);
    var ts := ObjectWalk(have, want);
    PairFinds(kept, gone);
    PairFinds(gone, kept);
    GoneTurns(kept, gone);
    NumbersOrdered(other.members, have, want);
    assert !Replaced(kept.val, kept.val);
    var i, j :| 0 <= i < |ts| && 0 <= j < |ts| && ts[i].key == gone.key && ts[j].key == kept.key;
    assert Detaches(ts[i]) && Keeps(ts[j]);
    PairInOrder(kept, gone, ts);
    assert !InOrder(have.members, ts) by { PairOutOfOrder(kept, gone, ts, i, j); }
  }

  lemma PairOutOfOrder(kept: Member, gone: Member, ts: seq<Turn>, i: nat, j: nat)
    requires kept.key != gone.key && Fold(kept.key) == Fold(gone.key) && i < |ts| && j < |ts|
    requires Detaches(ts[i]) && Keeps(ts[j]) && ts[i].key == gone.key && ts[j].key == kept.key
    ensures !InOrder([kept, gone], ts)
  {
    hide Fold;
    hide Rank;
    hide Due;
    hide FindMember;
    hide Replaced;
    PairFinds(kept, gone);
  }

  lemma PairInOrder(kept: Member, gone: Member, ts: seq<Turn>)
    requires kept.key != gone.key && Fold(kept.key) == Fold(gone.key) && !Replaced(kept.val, kept.val)
    requires forall i :: 0 <= i < |ts| ==> ts[i] == Surplus(gone.key) || ts[i] == Common(kept.key, kept.val, kept.val)
    ensures InOrder([gone, kept], ts)
  {
    hide Fold;
    hide Rank;
    hide Due;
    hide FindMember;
    hide Replaced;
    PairFinds(gone, kept);
    assert forall i :: 0 <= i < |ts| && Detaches(ts[i]) ==> ts[i].key == gone.key && !Adds(ts[i]);
    assert forall i :: 0 <= i < |ts| && Keeps(ts[i]) ==> ts[i].key == kept.key;
  }

  lemma NumbersOrdered(now: seq<Member>, have: Json, want: Json)
    requires have.Object? && want.Object? && forall j :: 0 <= j < |want.members| ==> want.members[j].val.Number?
    ensures PairsOrdered(now, have, want)
  {
  }

  lemma PairFits(kept: Member, gone: Member)
    requires kept.key != gone.key && Survives(gone.key) && kept.val.Number? && gone.val.Number?
    ensures WellFormed(Pair(kept, gone)) && WellFormed(Pair(gone, kept)) && WellFormed(Object([kept]))
    ensures Meaning(Pair(gone, kept)) == Meaning(Pair(kept, gone)) && Patchable(Pair(kept, gone), Object([kept]), true)
  {
    hide Survives;
    PairFinds(kept, gone);
    PairFinds(gone, kept);
    var x, z, y := Pair(kept, gone).members, Pair(gone, kept).members, [kept];
    assert x[0] == kept && x[1] == gone && z[0] == gone && z[1] == kept && y[0] == kept;
    assert Addressable(kept.val, true) && Addressable(gone.val, true);
    assert Addressable(Object(x), true) && Addressable(Object(z), true) && Addressable(Object(y), true);
    assert Lookup(x, kept.key).Some? && Lookup(y, kept.key).Some?;
    assert map[kept.key := Meaning(kept.val), gone.key := Meaning(gone.val)] == map[gone.key := Meaning(gone.val), kept.key := Meaning(kept.val)];
  }
}
