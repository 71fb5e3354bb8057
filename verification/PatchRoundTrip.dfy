/**
  When the patches from one document to another, applied to a duplicate of the
  first, give the second: exactly when every name in which the path of one of them
  ends comes back from the in-place decoder.
 */
module PatchRoundTrip {
  import opened CStrings
  import opened JsonValues
  import opened Members
  import opened Compare
  import opened Pointers
  import opened PointerDecoding
  import opened JsonPatch
  import opened PatchLocality
  import opened PatchTurns

  /** The patches from `have` to `want` make this document mean what `want` means. */
  ghost predicate Reproduces(now: Json, have: Json, want: Json, caseSensitive: bool) {
    var r := Result(now, have, want, caseSensitive);
    Ok(r) && Meaning(r.doc) == Meaning(want)
  }

  // ----- runs over turns -----

  /** What a turn finds in a duplicate. */
  ghost predicate Ready(m: map<string, Json>, t: Turn) {
    match t
    case Surplus(k) => k in m
    case Missing(k, _) => k !in m
    case Common(k, u, _) => k in m && Meaning(m[k]) == Meaning(u)
  }

  /** What a turn should leave behind. */
  ghost predicate Settled(m: map<string, Json>, t: Turn) {
    match t
    case Surplus(k) => k !in m
    case Missing(k, w) => k in m && Meaning(m[k]) == Meaning(w)
    case Common(k, _, w) => k in m && Meaning(m[k]) == Meaning(w)
  }

  /** What it takes for that. */
  ghost predicate Fits(m: map<string, Json>, t: Turn, caseSensitive: bool) {
    match t
    case Surplus(k) => Survives(k)
    case Missing(k, _) => Survives(k)
    case Common(k, u, w) => if Replaced(u, w) then Survives(k) else k in m && Reproduces(m[k], u, w, caseSensitive)
  }

  ghost predicate DistinctKeys(ts: seq<Turn>) {
    forall i, j :: 0 <= i < j < |ts| ==> ts[i].key != ts[j].key
  }

  ghost predicate AllReady(m: map<string, Json>, ts: seq<Turn>) {
    forall i :: 0 <= i < |ts| ==> Ready(m, ts[i])
  }

  ghost predicate AllSettled(m: map<string, Json>, ts: seq<Turn>) {
    forall i :: 0 <= i < |ts| ==> Settled(m, ts[i])
  }

  ghost predicate AllFit(m: map<string, Json>, ts: seq<Turn>, caseSensitive: bool) {
    forall i :: 0 <= i < |ts| ==> Fits(m, ts[i], caseSensitive)
  }

  ghost predicate IsKey(ts: seq<Turn>, n: string) {
    exists i :: 0 <= i < |ts| && ts[i].key == n
  }

  /** The two maps hold the same under this name. */
  ghost predicate SameAt(m: map<string, Json>, m': map<string, Json>, n: string) {
    (n in m <==> n in m') && (n in m ==> m[n] == m'[n])
  }

  /** The name under which a turn may change something. */
  ghost function Target(t: Turn): string {
    if t.Common? && !Replaced(t.u, t.w) then t.key else Decoded(t.key)
  }

  lemma EffectElsewhere(m: map<string, Json>, t: Turn, n: string, caseSensitive: bool)
    requires Effect(m, t, caseSensitive).Some? && n != Target(t)
    ensures SameAt(m, Effect(m, t, caseSensitive).value, n)
  {
    hide Create;
    hide Decoded;
    hide Replaced;
    hide Result;
  }

  lemma FitTurn(m: map<string, Json>, t: Turn, caseSensitive: bool)
    requires Ready(m, t) && Fits(m, t, caseSensitive)
    ensures Target(t) == t.key
    ensures Effect(m, t, caseSensitive).Some? && Settled(Effect(m, t, caseSensitive).value, t)
  {
    hide Create;
    hide Decoded;
    hide Replaced;
    hide Survives;
    hide ApplyAll;
    SurvivingStays(t.key);
    if t.Common? && t.key in m { OnePatch(m[t.key], Null, caseSensitive); }
  }

  /** Where everything fits, the run goes through and leaves every turn settled. */
  lemma {:induction false} RunFits(m: map<string, Json>, ts: seq<Turn>, caseSensitive: bool)
    requires DistinctKeys(ts) && AllReady(m, ts) && AllFit(m, ts, caseSensitive)
    ensures var e := RunTurns(m, ts, caseSensitive);
      e.Some? && AllSettled(e.value, ts) && forall n :: !IsKey(ts, n) ==> SameAt(m, e.value, n)
    decreases |ts|
  {
    hide Effect;
    hide Ready;
    hide Fits;
    hide Settled;
    if ts != [] {
      var t, rest := ts[0], ts[1..];
      FitTurn(m, t, caseSensitive);
      var m' := Effect(m, t, caseSensitive).value;
      forall i | 0 <= i < |rest|
        ensures Ready(m', rest[i]) && Fits(m', rest[i], caseSensitive)
      {
        assert rest[i] == ts[i + 1];
        EffectElsewhere(m, t, rest[i].key, caseSensitive);
        StillFits(m, m', rest[i], caseSensitive);
      }
      RunFits(m', rest, caseSensitive);
      var last := RunTurns(m', rest, caseSensitive).value;
      assert !IsKey(rest, t.key);
      StillSettled(m', last, t);
      forall i | 0 <= i < |ts|
        ensures Settled(last, ts[i])
      {
        if i > 0 { assert ts[i] == rest[i - 1]; }
      }
      forall n | !IsKey(ts, n)
        ensures SameAt(m, last, n)
      {
        KeyOfTail(ts, n);
        EffectElsewhere(m, t, n, caseSensitive);
      }
    }
  }

  lemma KeyOfTail(ts: seq<Turn>, n: string)
    requires ts != []
    ensures IsKey(ts, n) <==> ts[0].key == n || IsKey(ts[1..], n)
  {
    if IsKey(ts[1..], n) {
      var i :| 0 <= i < |ts[1..]| && ts[1..][i].key == n;
      assert ts[i + 1].key == n;
    }
    if IsKey(ts, n) {
      var i :| 0 <= i < |ts| && ts[i].key == n;
      assert i > 0 ==> ts[1..][i - 1].key == n;
    }
  }

  lemma StillFits(m: map<string, Json>, m': map<string, Json>, t: Turn, caseSensitive: bool)
    requires SameAt(m, m', t.key)
    ensures Ready(m, t) ==> Ready(m', t)
    ensures Fits(m, t, caseSensitive) ==> Fits(m', t, caseSensitive)
  {
    hide Reproduces;
    hide Replaced;
    hide Survives;
  }

  lemma StillSettled(m: map<string, Json>, m': map<string, Json>, t: Turn)
    requires SameAt(m, m', t.key) && Settled(m, t)
    ensures Settled(m', t)
  {
  }

  // ----- what a run that settles everything shows -----

  ghost predicate Inserts(t: Turn, n: string) {
    t.Missing? && Decoded(t.key) == n
  }

  ghost predicate Deletes(t: Turn, n: string) {
    t.Surplus? && Decoded(t.key) == n
  }

  ghost predicate Overwrites(t: Turn, n: string) {
    t.Common? && Replaced(t.u, t.w) && Decoded(t.key) == n
  }

  ghost predicate Enters(t: Turn, n: string) {
    t.Common? && !Replaced(t.u, t.w) && t.key == n
  }

  lemma OneEffect(m: map<string, Json>, t: Turn, n: string, caseSensitive: bool)
    requires Effect(m, t, caseSensitive).Some?
    ensures var m' := Effect(m, t, caseSensitive).value;
      (n !in m && n in m' ==> Inserts(t, n)) && (n in m && n !in m' ==> Deletes(t, n)) &&
      (n in m && n in m' && m[n] != m'[n] ==> Inserts(t, n) || Overwrites(t, n) || Enters(t, n))
  {
    hide Create;
    hide Decoded;
    hide Replaced;
    hide Result;
  }

  /** A name that has come was inserted by a turn, under what its key is decoded to. */
  lemma {:induction false} NewName(m: map<string, Json>, ts: seq<Turn>, n: string, caseSensitive: bool) returns (i: nat)
    requires RunTurns(m, ts, caseSensitive).Some? && n !in m && n in RunTurns(m, ts, caseSensitive).value
    ensures i < |ts| && Inserts(ts[i], n)
    decreases |ts|
  {
    hide Effect;
    hide Inserts;
    OneEffect(m, ts[0], n, caseSensitive);
    var m' := Effect(m, ts[0], caseSensitive).value;
    if n in m' { return 0; }
    i := NewName(m', ts[1..], n, caseSensitive);
    i := i + 1;
  }

  lemma {:induction false} GoneName(m: map<string, Json>, ts: seq<Turn>, n: string, caseSensitive: bool) returns (i: nat)
    requires RunTurns(m, ts, caseSensitive).Some? && n in m && n !in RunTurns(m, ts, caseSensitive).value
    ensures i < |ts| && Deletes(ts[i], n)
    decreases |ts|
  {
    hide Effect;
    hide Deletes;
    OneEffect(m, ts[0], n, caseSensitive);
    var m' := Effect(m, ts[0], caseSensitive).value;
    if n !in m' { return 0; }
    i := GoneName(m', ts[1..], n, caseSensitive);
    i := i + 1;
  }

  lemma {:induction false} NewValue(m: map<string, Json>, ts: seq<Turn>, n: string, caseSensitive: bool) returns (i: nat)
    requires RunTurns(m, ts, caseSensitive).Some? && n in m && n in RunTurns(m, ts, caseSensitive).value
    requires m[n] != RunTurns(m, ts, caseSensitive).value[n]
    ensures i < |ts| && (Inserts(ts[i], n) || Deletes(ts[i], n) || Overwrites(ts[i], n) || Enters(ts[i], n))
    decreases |ts|
  {
    hide Effect;
    hide Inserts;
    hide Deletes;
    hide Overwrites;
    hide Enters;
    OneEffect(m, ts[0], n, caseSensitive);
    var m' := Effect(m, ts[0], caseSensitive).value;
    if n !in m' || m'[n] != m[n] { return 0; }
    i := NewValue(m', ts[1..], n, caseSensitive);
    i := i + 1;
  }

  /** A run over turns that finds all ready and leaves all settled. */
  ghost predicate Settling(m: map<string, Json>, ts: seq<Turn>, caseSensitive: bool) {
    DistinctKeys(ts) && AllReady(m, ts) && RunTurns(m, ts, caseSensitive).Some? &&
    AllSettled(RunTurns(m, ts, caseSensitive).value, ts)
  }

  ghost function MissingKeys(ts: seq<Turn>): set<string> {
    set i | 0 <= i < |ts| && ts[i].Missing? :: ts[i].key
  }

  ghost function SurplusKeys(ts: seq<Turn>): set<string> {
    set i | 0 <= i < |ts| && ts[i].Surplus? :: ts[i].key
  }

  ghost function ReplacedKeys(ts: seq<Turn>): set<string> {
    set i | 0 <= i < |ts| && ts[i].Common? && Replaced(ts[i].u, ts[i].w) :: ts[i].key
  }

  lemma MissingSurvive(m: map<string, Json>, ts: seq<Turn>, caseSensitive: bool)
    requires Settling(m, ts, caseSensitive)
    ensures forall n :: n in MissingKeys(ts) ==> Survives(n)
  {
    hide Decoded;
    hide Survives;
    hide RunTurns;
    forall n | n in MissingKeys(ts)
      ensures IsDecoded(MissingKeys(ts), n)
    {
      var j :| 0 <= j < |ts| && ts[j].Missing? && ts[j].key == n;
      assert Ready(m, ts[j]) && Settled(RunTurns(m, ts, caseSensitive).value, ts[j]);
      var i := NewName(m, ts, n, caseSensitive);
      assert ts[i].key in MissingKeys(ts);
    }
    AllDecodedSurvive(MissingKeys(ts));
  }

  lemma SurplusSurvive(m: map<string, Json>, ts: seq<Turn>, caseSensitive: bool)
    requires Settling(m, ts, caseSensitive)
    ensures forall n :: n in SurplusKeys(ts) ==> Survives(n)
  {
    hide Decoded;
    hide Survives;
    hide RunTurns;
    forall n | n in SurplusKeys(ts)
      ensures IsDecoded(SurplusKeys(ts), n)
    {
      var j :| 0 <= j < |ts| && ts[j].Surplus? && ts[j].key == n;
      assert Ready(m, ts[j]) && Settled(RunTurns(m, ts, caseSensitive).value, ts[j]);
      var i := GoneName(m, ts, n, caseSensitive);
      assert ts[i].key in SurplusKeys(ts);
    }
    AllDecodedSurvive(SurplusKeys(ts));
  }

  lemma ReplacedDiffers(u: Json, w: Json)
    requires Replaced(u, w)
    ensures Meaning(u) != Meaning(w)
  {
  }

  lemma ReplacedSurvive(m: map<string, Json>, ts: seq<Turn>, caseSensitive: bool)
    requires Settling(m, ts, caseSensitive)
    ensures forall n :: n in ReplacedKeys(ts) ==> Survives(n)
  {
    MissingSurvive(m, ts, caseSensitive);
    SurplusSurvive(m, ts, caseSensitive);
    hide Decoded;
    hide Survives;
    hide RunTurns;
    hide Replaced;
    forall n | n in ReplacedKeys(ts)
      ensures IsDecoded(ReplacedKeys(ts), n)
    {
      var j :| 0 <= j < |ts| && ts[j].Common? && Replaced(ts[j].u, ts[j].w) && ts[j].key == n;
      assert Ready(m, ts[j]) && Settled(RunTurns(m, ts, caseSensitive).value, ts[j]);
      ReplacedDiffers(ts[j].u, ts[j].w);
      var i := NewValue(m, ts, n, caseSensitive);
      if ts[i].Missing? { assert ts[i].key in MissingKeys(ts); }
      if ts[i].Surplus? { assert ts[i].key in SurplusKeys(ts); }
      SurvivingStays(ts[i].key);
      assert Overwrites(ts[i], n);
      assert ts[i].key in ReplacedKeys(ts);
    }
    AllDecodedSurvive(ReplacedKeys(ts));
  }

  /** Each turn changes something under its own key only. */
  ghost predicate OwnTargets(ts: seq<Turn>) {
    DistinctKeys(ts) && forall i :: 0 <= i < |ts| ==> Target(ts[i]) == ts[i].key
  }

  lemma {:induction false} RestKeeps(m: map<string, Json>, ts: seq<Turn>, n: string, caseSensitive: bool)
    requires RunTurns(m, ts, caseSensitive).Some? && forall i :: 0 <= i < |ts| ==> Target(ts[i]) != n
    ensures SameAt(m, RunTurns(m, ts, caseSensitive).value, n)
    decreases |ts|
  {
    hide Effect;
    hide Target;
    if ts != [] {
      EffectElsewhere(m, ts[0], n, caseSensitive);
      RestKeeps(Effect(m, ts[0], caseSensitive).value, ts[1..], n, caseSensitive);
    }
  }

  /** The turn at i finds under its key what was there, and leaves there what is there in the end. */
  lemma {:induction false} TurnAt(m: map<string, Json>, ts: seq<Turn>, i: nat, caseSensitive: bool) returns (m': map<string, Json>)
    requires OwnTargets(ts) && RunTurns(m, ts, caseSensitive).Some? && i < |ts|
    ensures SameAt(m, m', ts[i].key) && Effect(m', ts[i], caseSensitive).Some?
    ensures SameAt(Effect(m', ts[i], caseSensitive).value, RunTurns(m, ts, caseSensitive).value, ts[i].key)
    decreases |ts|
  {
    hide Effect;
    hide Target;
    var next := Effect(m, ts[0], caseSensitive).value;
    var rest := ts[1..];
    assert forall j :: 0 <= j < |rest| ==> rest[j] == ts[j + 1];
    if i == 0 {
      RestKeeps(next, rest, ts[0].key, caseSensitive);
      m' := m;
    } else {
      EffectElsewhere(m, ts[0], ts[i].key, caseSensitive);
      m' := TurnAt(next, rest, i - 1, caseSensitive);
    }
  }

  lemma SettlingOwns(m: map<string, Json>, ts: seq<Turn>, caseSensitive: bool)
    requires Settling(m, ts, caseSensitive)
    ensures OwnTargets(ts)
    ensures forall i :: 0 <= i < |ts| && (ts[i].Common? ==> Replaced(ts[i].u, ts[i].w)) ==> Survives(ts[i].key)
  {
    MissingSurvive(m, ts, caseSensitive);
    SurplusSurvive(m, ts, caseSensitive);
    ReplacedSurvive(m, ts, caseSensitive);
    hide Decoded;
    hide Survives;
    hide RunTurns;
    hide Replaced;
    forall i | 0 <= i < |ts|
      ensures Target(ts[i]) == ts[i].key
      ensures (ts[i].Common? ==> Replaced(ts[i].u, ts[i].w)) ==> Survives(ts[i].key)
    {
      if ts[i].Missing? { assert ts[i].key in MissingKeys(ts); }
      if ts[i].Surplus? { assert ts[i].key in SurplusKeys(ts); }
      if ts[i].Common? && Replaced(ts[i].u, ts[i].w) { assert ts[i].key in ReplacedKeys(ts); }
      SurvivingStays(ts[i].key);
    }
  }

  /** A run that goes through and leaves every turn settled shows that everything fitted. */
  lemma SettlingFits(m: map<string, Json>, ts: seq<Turn>, caseSensitive: bool)
    requires Settling(m, ts, caseSensitive)
    ensures AllFit(m, ts, caseSensitive)
  {
    SettlingOwns(m, ts, caseSensitive);
    hide Survives;
    hide Replaced;
    hide Create;
    hide RunTurns;
    hide Decoded;
    hide ApplyAll;
    forall i | 0 <= i < |ts|
      ensures Fits(m, ts[i], caseSensitive)
    {
      var t := ts[i];
      if t.Common? && !Replaced(t.u, t.w) {
        assert Ready(m, t) && Settled(RunTurns(m, ts, caseSensitive).value, t);
        var m' := TurnAt(m, ts, i, caseSensitive);
        OnePatch(m[t.key], Null, caseSensitive);
      }
    }
  }

  // ----- the turns of a walk -----

  /** The turn is what the two objects have under its key. */
  predicate TurnOf(t: Turn, x: seq<Member>, y: seq<Member>) {
    match t
    case Surplus(k) => Lookup(x, k).Some? && Lookup(y, k).None?
    case Missing(k, w) => Lookup(x, k).None? && Lookup(y, k) == Some(w)
    case Common(k, u, w) => Lookup(x, k) == Some(u) && Lookup(y, k) == Some(w)
  }

  /** Each name of the two objects has its turn. */
  ghost predicate TurnsOf(ts: seq<Turn>, x: seq<Member>, y: seq<Member>) {
    DistinctKeys(ts) && (forall i :: 0 <= i < |ts| ==> TurnOf(ts[i], x, y)) &&
    forall k :: IsKey(ts, k) <==> Lookup(x, k).Some? || Lookup(y, k).Some?
  }

  ghost predicate SortedKeyed(ms: seq<Member>, ks: iset<string>, caseSensitive: bool) {
    UniqueKeys(ms) && StrictlySorted(ms, caseSensitive) && forall i :: 0 <= i < |ms| ==> ms[i].key in ks
  }

  lemma SortedRest(ms: seq<Member>, ks: iset<string>, caseSensitive: bool)
    requires SortedKeyed(ms, ks, caseSensitive) && ms != []
    ensures SortedKeyed(ms[1..], ks, caseSensitive) && ms[0].key in ks
    ensures Lookup(ms, ms[0].key) == Some(ms[0].val) && Lookup(ms[1..], ms[0].key).None?
  {
    Heads(ms, ms[0].key);
  }

  lemma NotBefore(ms: seq<Member>, k: string, ks: iset<string>, caseSensitive: bool)
    requires SortedKeyed(ms, ks, caseSensitive)
    requires ms != [] ==> Less(View(k, caseSensitive), View(ms[0].key, caseSensitive))
    ensures Lookup(ms, k).None?
  {
    HeadIsNew(ms, k, caseSensitive);
    FindMeaning(ms, k);
  }

  /** What the walk does first, and that the name is in neither rest. */
  lemma HeadTurn(x: seq<Member>, y: seq<Member>, ks: iset<string>, caseSensitive: bool)
    returns (t: Turn, x': seq<Member>, y': seq<Member>)
    requires SortedKeyed(x, ks, caseSensitive) && SortedKeyed(y, ks, caseSensitive) && (caseSensitive || FoldInjective(ks))
    requires x != [] || y != []
    ensures Turns(x, y, caseSensitive) == [t] + Turns(x', y', caseSensitive) && |x'| + |y'| < |x| + |y|
    ensures SortedKeyed(x', ks, caseSensitive) && SortedKeyed(y', ks, caseSensitive)
    ensures TurnOf(t, x, y) && Lookup(x', t.key).None? && Lookup(y', t.key).None?
    ensures (x' == x || (x != [] && x[0].key == t.key && x' == x[1..])) && (y' == y || (y != [] && y[0].key == t.key && y' == y[1..]))
  {
    hide Less;
    hide Fold;
    var diff := WalkSign(x, y, caseSensitive);
    x', y' := if diff <= 0 then x[1..] else x, if diff >= 0 then y[1..] else y;
    if x != [] { SortedRest(x, ks, caseSensitive); }
    if y != [] { SortedRest(y, ks, caseSensitive); }
    hide SortedKeyed;
    hide Lookup;
    if diff == 0 {
      t := Common(x[0].key, x[0].val, y[0].val);
    } else if diff < 0 {
      t := Surplus(x[0].key);
      NotBefore(y, x[0].key, ks, caseSensitive);
    } else {
      t := Missing(y[0].key, y[0].val);
      if x != [] { LessTotal(View(x[0].key, caseSensitive), View(y[0].key, caseSensitive)); }
      NotBefore(x, y[0].key, ks, caseSensitive);
    }
  }

  lemma {:induction false} WalkTurns(x: seq<Member>, y: seq<Member>, ks: iset<string>, caseSensitive: bool)
    requires SortedKeyed(x, ks, caseSensitive) && SortedKeyed(y, ks, caseSensitive) && (caseSensitive || FoldInjective(ks))
    ensures TurnsOf(Turns(x, y, caseSensitive), x, y)
    decreases |x| + |y|
  {
    if x != [] || y != [] {
      var t, x', y' := HeadTurn(x, y, ks, caseSensitive);
      hide Turns;
      WalkTurns(x', y', ks, caseSensitive);
      var ts, rest := Turns(x, y, caseSensitive), Turns(x', y', caseSensitive);
      LookupsGoOn(x, x', t.key);
      LookupsGoOn(y, y', t.key);
      hide Lookup;
      hide SortedKeyed;
      TurnsGoOn(t, rest, x, y, x', y');
    }
  }

  lemma LookupsGoOn(ms: seq<Member>, rest: seq<Member>, key: string)
    requires UniqueKeys(ms) && (rest == ms || (ms != [] && ms[0].key == key && rest == ms[1..]))
    ensures forall k :: k != key ==> Lookup(rest, k) == Lookup(ms, k)
  {
    forall k | k != key
      ensures Lookup(rest, k) == Lookup(ms, k)
    {
      Heads(ms, k);
    }
  }

  lemma TurnsGoOn(t: Turn, rest: seq<Turn>, x: seq<Member>, y: seq<Member>, x': seq<Member>, y': seq<Member>)
    requires TurnsOf(rest, x', y') && TurnOf(t, x, y) && Lookup(x', t.key).None? && Lookup(y', t.key).None?
    requires forall k :: k != t.key ==> Lookup(x', k) == Lookup(x, k) && Lookup(y', k) == Lookup(y, k)
    ensures TurnsOf([t] + rest, x, y)
  {
    hide Lookup;
    var ts := [t] + rest;
    assert ts[0] == t && ts[1..] == rest;
    assert !IsKey(rest, t.key);
    forall i | 0 <= i < |ts|
      ensures TurnOf(ts[i], x, y) && (i > 0 ==> ts[i].key != t.key)
    {
      if i > 0 { assert ts[i] == rest[i - 1]; }
    }
    forall k
      ensures IsKey(ts, k) <==> Lookup(x, k).Some? || Lookup(y, k).Some?
    {
      KeyOfTail(ts, k);
    }
  }

  // ----- the condition -----

  /**
    Every name in which the path of a patch ends survives the decoder: the names
    only one of the objects has, and those under which something is replaced as a
    whole (`ends`: whether the name that leads here survives).
   */
  predicate Patchable(have: Json, want: Json, ends: bool)
    decreases Depth(have)
  {
    if Replaced(have, want) then ends else
      match have
      case Array(items) =>
        forall i :: 0 <= i < |items| && i < |want.items| ==> Patchable(items[i], want.items[i], true)
      case Object(ms) =>
        (forall i :: 0 <= i < |ms| ==> Lookup(want.members, ms[i].key).Some? || Survives(ms[i].key)) &&
        (forall j :: 0 <= j < |want.members| ==> Lookup(ms, want.members[j].key).Some? || Survives(want.members[j].key)) &&
        forall i, j :: 0 <= i < |ms| && 0 <= j < |want.members| && ms[i].key == want.members[j].key ==>
          Patchable(ms[i].val, want.members[j].val, Survives(ms[i].key))
      case _ => true
  }

  ghost predicate PatchableTurn(t: Turn) {
    if t.Common? then Patchable(t.u, t.w, Survives(t.key)) else Survives(t.key)
  }

  /** For objects the condition goes turn by turn. */
  lemma PatchableTurns(have: Json, want: Json, ts: seq<Turn>, ends: bool)
    requires have.Object? && want.Object? && UniqueKeys(have.members) && UniqueKeys(want.members)
    requires TurnsOf(ts, have.members, want.members)
    ensures Patchable(have, want, ends) <==> forall i :: 0 <= i < |ts| ==> PatchableTurn(ts[i])
  {
    hide Survives;
    hide Lookup;
    hide PatchableTurn;
    hide TurnOf;
    var x, y := have.members, want.members;
    if Patchable(have, want, ends) {
      forall n | 0 <= n < |ts|
        ensures PatchableTurn(ts[n])
      {
        TurnPatchable(have, want, ts[n], ends);
      }
    }
    if forall i :: 0 <= i < |ts| ==> PatchableTurn(ts[i]) {
      forall k | IsKey(ts, k)
        ensures exists n :: 0 <= n < |ts| && ts[n].key == k && TurnOf(ts[n], x, y) && PatchableTurn(ts[n])
      {
        var n :| 0 <= n < |ts| && ts[n].key == k;
        assert TurnOf(ts[n], x, y) && PatchableTurn(ts[n]);
      }
      NamesPatchable(x, y, ts);
    }
  }

  lemma TurnPatchable(have: Json, want: Json, t: Turn, ends: bool)
    requires have.Object? && want.Object? && Patchable(have, want, ends) && TurnOf(t, have.members, want.members)
    ensures PatchableTurn(t)
  {
    hide Survives;
    var x, y := have.members, want.members;
    var i, j := FindMember(x, t.key, true), FindMember(y, t.key, true);
    if t.Common? { assert x[i].key == y[j].key; }
  }

  lemma NamesPatchable(x: seq<Member>, y: seq<Member>, ts: seq<Turn>)
    requires UniqueKeys(x) && UniqueKeys(y)
    requires forall k :: Lookup(x, k).Some? || Lookup(y, k).Some? ==>
      exists n :: 0 <= n < |ts| && ts[n].key == k && TurnOf(ts[n], x, y) && PatchableTurn(ts[n])
    ensures forall i :: 0 <= i < |x| ==> Lookup(y, x[i].key).Some? || Survives(x[i].key)
    ensures forall j :: 0 <= j < |y| ==> Lookup(x, y[j].key).Some? || Survives(y[j].key)
    ensures forall i, j :: 0 <= i < |x| && 0 <= j < |y| && x[i].key == y[j].key ==> Patchable(x[i].val, y[j].val, Survives(x[i].key))
  {
    hide Survives;
    hide Patchable;
    forall i | 0 <= i < |x|
      ensures Lookup(y, x[i].key).Some? || Survives(x[i].key)
      ensures forall j :: 0 <= j < |y| && x[i].key == y[j].key ==> Patchable(x[i].val, y[j].val, Survives(x[i].key))
    {
      LookupAt(x, i);
      var n :| 0 <= n < |ts| && ts[n].key == x[i].key && TurnOf(ts[n], x, y) && PatchableTurn(ts[n]);
      forall j | 0 <= j < |y| && x[i].key == y[j].key
        ensures Patchable(x[i].val, y[j].val, Survives(x[i].key))
      {
        LookupAt(y, j);
      }
    }
    forall j | 0 <= j < |y|
      ensures Lookup(x, y[j].key).Some? || Survives(y[j].key)
    {
      LookupAt(y, j);
      var n :| 0 <= n < |ts| && ts[n].key == y[j].key && TurnOf(ts[n], x, y) && PatchableTurn(ts[n]);
    }
  }

  // ----- objects -----

  lemma HeldMeaning(ms: seq<Member>, k: string)
    requires UniqueKeys(ms)
    ensures k in MembersMeaning(ms) <==> k in Held(ms)
    ensures k in Held(ms) ==> MembersMeaning(ms)[k] == Meaning(Held(ms)[k])
  {
    FindMeaning(ms, k);
  }

  lemma LookupMeans(ms: seq<Member>, k: string)
    ensures k in MembersMeaning(ms) <==> Lookup(ms, k).Some?
    ensures Lookup(ms, k).Some? ==> MembersMeaning(ms)[k] == Meaning(Lookup(ms, k).value)
  {
    FindMeaning(ms, k);
  }

  /** In a duplicate of the first object every turn is ready. */
  lemma DuplicateReady(now: seq<Member>, have: seq<Member>, want: seq<Member>, ts: seq<Turn>)
    requires UniqueKeys(now) && MembersMeaning(now) == MembersMeaning(have) && TurnsOf(ts, have, want)
    ensures AllReady(Held(now), ts)
  {
    hide Lookup;
    forall i | 0 <= i < |ts|
      ensures Ready(Held(now), ts[i])
    {
      assert TurnOf(ts[i], have, want);
      HeldMeaning(now, ts[i].key);
      LookupMeans(have, ts[i].key);
    }
  }

  /** An object means what the second one means exactly if every turn is settled and no other name is there. */
  lemma SettledMeans(ms: seq<Member>, have: seq<Member>, want: seq<Member>, ts: seq<Turn>)
    requires UniqueKeys(ms) && TurnsOf(ts, have, want)
    ensures MembersMeaning(ms) == MembersMeaning(want) <==>
      AllSettled(Held(ms), ts) && forall k :: !IsKey(ts, k) ==> k !in Held(ms)
  {
    hide Lookup;
    hide MembersMeaning;
    hide Meaning;
    var p, q := MembersMeaning(ms), MembersMeaning(want);
    forall k
      ensures (k in p <==> k in Held(ms)) && (k in p ==> p[k] == Meaning(Held(ms)[k]))
      ensures (k in q <==> Lookup(want, k).Some?) && (k in q ==> q[k] == Meaning(Lookup(want, k).value))
    {
      HeldMeaning(ms, k);
      LookupMeans(want, k);
    }
    if p == q {
      forall i | 0 <= i < |ts|
        ensures Settled(Held(ms), ts[i])
      {
        assert TurnOf(ts[i], have, want);
        assert ts[i].key in p <==> ts[i].key in q;
      }
    }
    if AllSettled(Held(ms), ts) && forall k :: !IsKey(ts, k) ==> k !in Held(ms) {
      forall k
        ensures (k in p <==> k in q) && (k in p ==> p[k] == q[k])
      {
        if IsKey(ts, k) {
          var i :| 0 <= i < |ts| && ts[i].key == k;
          assert TurnOf(ts[i], have, want) && Settled(Held(ms), ts[i]);
        }
      }
      assert p == q;
    }
  }

  /** The walk over two objects gives each name its turn. */
  lemma ObjectTurns(have: Json, want: Json, ks: iset<string>, caseSensitive: bool) returns (ts: seq<Turn>)
    requires have.Object? && want.Object? && Named(have.members, ks) && Named(want.members, ks)
    requires caseSensitive || FoldInjective(ks)
    ensures ts == Turns(SortMembers(have.members, caseSensitive), SortMembers(want.members, caseSensitive), caseSensitive)
    ensures TurnsOf(ts, have.members, want.members)
  {
    var x, y := SortMembers(have.members, caseSensitive), SortMembers(want.members, caseSensitive);
    SortObject(have.members, ks, caseSensitive);
    SortObject(want.members, ks, caseSensitive);
    hide SortMembers;
    WalkTurns(x, y, ks, caseSensitive);
    ts := Turns(x, y, caseSensitive);
    SameTurns(ts, have.members, want.members, caseSensitive);
  }

  /** The patches for two objects, applied to any object with names among these. */
  lemma ObjectShows(now: Json, have: Json, want: Json, ks: iset<string>, caseSensitive: bool) returns (ts: seq<Turn>)
    requires now.Object? && have.Object? && want.Object? && FoldInjective(ks)
    requires Named(now.members, ks) && Named(have.members, ks) && Named(want.members, ks)
    ensures TurnsOf(ts, have.members, want.members)
    ensures (forall i :: 0 <= i < |ts| ==> EndsIn(ts[i], ks)) ==>
      Shows(Result(now, have, want, caseSensitive), RunTurns(Held(now.members), ts, caseSensitive), ks)
  {
    hide ApplyAll;
    hide CreateMembers;
    hide RunTurns;
    hide Shows;
    hide EndsIn;
    hide Depth;
    hide Turns;
    ts := ObjectTurns(have, want, ks, caseSensitive);
    SortedDepth(have.members, caseSensitive);
    CreateCases("", have, want, caseSensitive);
    hide Create;
    if forall i :: 0 <= i < |ts| ==> EndsIn(ts[i], ks) {
      WalkShows(have, now.members, SortMembers(have.members, caseSensitive), SortMembers(want.members, caseSensitive), ks, caseSensitive);
    }
  }

  lemma SameTurns(ts: seq<Turn>, x: seq<Member>, y: seq<Member>, caseSensitive: bool)
    requires UniqueKeys(x) && UniqueKeys(y)
    requires TurnsOf(ts, SortMembers(x, caseSensitive), SortMembers(y, caseSensitive))
    ensures TurnsOf(ts, x, y)
  {
    hide SortMembers;
    hide Lookup;
    forall k
      ensures Lookup(SortMembers(x, caseSensitive), k) == Lookup(x, k) && Lookup(SortMembers(y, caseSensitive), k) == Lookup(y, k)
    {
      SortedLookup(x, k, caseSensitive);
      SortedLookup(y, k, caseSensitive);
    }
  }

  lemma KeysAmong(ts: seq<Turn>, have: Json, want: Json, ks: iset<string>)
    requires have.Object? && want.Object? && Named(have.members, ks) && Named(want.members, ks)
    requires TurnsOf(ts, have.members, want.members)
    ensures forall i :: 0 <= i < |ts| && PatchableTurn(ts[i]) ==> EndsIn(ts[i], ks)
    ensures (forall k :: IsKey(ts, k) ==> Decoded(k) in ks) ==> forall i :: 0 <= i < |ts| ==> EndsIn(ts[i], ks)
  {
    hide Decoded;
    hide Survives;
    hide Replaced;
    forall i | 0 <= i < |ts|
      ensures IsKey(ts, ts[i].key) && ts[i].key in ks && (PatchableTurn(ts[i]) ==> EndsIn(ts[i], ks))
    {
      assert TurnOf(ts[i], have.members, want.members);
      SurvivingStays(ts[i].key);
    }
  }

  /** Objects, when the question is decided for what their common names hold. */
  lemma ObjectExact(now: Json, have: Json, want: Json, ts: seq<Turn>, ks: iset<string>, caseSensitive: bool)
    requires now.Object? && have.Object? && want.Object?
    requires Named(now.members, ks) && Named(have.members, ks) && Named(want.members, ks) && Meaning(now) == Meaning(have)
    requires TurnsOf(ts, have.members, want.members)
    requires (forall i :: 0 <= i < |ts| ==> EndsIn(ts[i], ks)) ==>
      Shows(Result(now, have, want, caseSensitive), RunTurns(Held(now.members), ts, caseSensitive), ks)
    requires forall i :: 0 <= i < |ts| ==> (Fits(Held(now.members), ts[i], caseSensitive) <==> PatchableTurn(ts[i]))
    requires (forall i :: 0 <= i < |ts| ==> EndsIn(ts[i], ks)) || Patchable(have, want, true)
    ensures Reproduces(now, have, want, caseSensitive) <==> Patchable(have, want, true)
  {
    hide Result;
    hide RunTurns;
    hide Patchable;
    hide PatchableTurn;
    hide Fits;
    hide EndsIn;
    var m, r := Held(now.members), Result(now, have, want, caseSensitive);
    PatchableTurns(have, want, ts, true);
    KeysAmong(ts, have, want, ks);
    DuplicateReady(now.members, have.members, want.members, ts);
    assert AllFit(m, ts, caseSensitive) <==> Patchable(have, want, true);
    if Patchable(have, want, true) {
      RunFits(m, ts, caseSensitive);
      NothingElse(now.members, have.members, want.members, ts);
      SettledMeans(r.doc.members, have.members, want.members, ts);
    }
    if Reproduces(now, have, want, caseSensitive) {
      assert r.doc == Object(r.doc.members);
      SettledMeans(r.doc.members, have.members, want.members, ts);
      SettlingFits(m, ts, caseSensitive);
    }
  }

  /** A duplicate has no names besides those of the turns. */
  lemma NothingElse(now: seq<Member>, have: seq<Member>, want: seq<Member>, ts: seq<Turn>)
    requires UniqueKeys(now) && MembersMeaning(now) == MembersMeaning(have) && TurnsOf(ts, have, want)
    ensures forall k :: !IsKey(ts, k) ==> k !in Held(now)
  {
    hide Lookup;
    forall k | !IsKey(ts, k)
      ensures k !in Held(now)
    {
      HeldMeaning(now, k);
      LookupMeans(have, k);
    }
  }

  // ----- arrays -----

  lemma MeansItems(now: Json, items: seq<Json>)
    ensures Meaning(now) == VArray(ItemsMeaning(items)) <==>
      now.Array? && |now.items| == |items| && forall i :: 0 <= i < |items| ==> Meaning(now.items[i]) == Meaning(items[i])
  {
    if now.Array? && |now.items| == |items| && forall i :: 0 <= i < |items| ==> Meaning(now.items[i]) == Meaning(items[i]) {
      assert ItemsMeaning(now.items) == ItemsMeaning(items);
    }
    if Meaning(now) == VArray(ItemsMeaning(items)) {
      assert |ItemsMeaning(now.items)| == |ItemsMeaning(items)|;
      assert forall i :: 0 <= i < |items| ==> ItemsMeaning(now.items)[i] == ItemsMeaning(items)[i];
    }
  }

  lemma PatchableItems(have: Json, want: Json, ends: bool)
    requires have.Array? && want.Array?
    ensures Patchable(have, want, ends) <==>
      forall i :: 0 <= i < Min(|have.items|, |want.items|) ==> Patchable(have.items[i], want.items[i], true)
  {
  }

  /** Arrays, element by element. */
  lemma ArrayExact(now: Json, have: Json, want: Json, caseSensitive: bool)
    requires now.Array? && have.Array? && want.Array? && Meaning(now) == Meaning(have)
    requires |now.items| == |have.items| <= SIZE_LIMIT && |want.items| <= SIZE_LIMIT
    ensures Reproduces(now, have, want, caseSensitive) <==> forall i :: 0 <= i < Min(|have.items|, |want.items|) ==>
      Reproduces(now.items[i], have.items[i], want.items[i], caseSensitive)
  {
    hide Meaning;
    hide ItemsMeaning;
    hide Result;
    hide ItemsPatched;
    var a, h, w, s := now.items, have.items, want.items, Result(now, have, want, caseSensitive);
    ArrayRun(now, have, want, caseSensitive);
    MeaningOfArray(want);
    if Ok(s) {
      MeansItems(s.doc, w);
      PatchedMean(a, h, w, s.doc.items, caseSensitive);
    }
  }

  lemma ArrayRun(now: Json, have: Json, want: Json, caseSensitive: bool)
    requires now.Array? && have.Array? && want.Array? && |now.items| == |have.items| <= SIZE_LIMIT && |want.items| <= SIZE_LIMIT
    ensures var s, a, h, w := Result(now, have, want, caseSensitive), now.items, have.items, want.items;
      (Ok(s) <==> forall i :: 0 <= i < Min(|h|, |w|) ==> Ok(Result(a[i], h[i], w[i], caseSensitive))) &&
      (Ok(s) ==> s.doc.Array? && ItemsPatched(a, h, w, 0, s.doc.items, caseSensitive))
  {
    hide ApplyAll;
    hide CreateItems;
    hide ItemsPatched;
    CreateCases("", have, want, caseSensitive);
    hide Create;
    ItemsRun(now.items, have, want.items, 0, caseSensitive);
    assert now == Array(now.items);
  }

  lemma PatchedMean(a: seq<Json>, h: seq<Json>, w: seq<Json>, r: seq<Json>, caseSensitive: bool)
    requires ItemsPatched(a, h, w, 0, r, caseSensitive)
    ensures |r| == |w|
    ensures (forall i :: 0 <= i < |w| ==> Meaning(r[i]) == Meaning(w[i])) <==>
      forall i :: 0 <= i < Min(|h|, |w|) ==> Meaning(Result(a[i], h[i], w[i], caseSensitive).doc) == Meaning(w[i])
  {
    hide Result;
    hide Meaning;
  }

  lemma MeaningOfArray(j: Json)
    requires j.Array?
    ensures Meaning(j) == VArray(ItemsMeaning(j.items))
  {
  }

  // ----- the round trip -----

  /** No name twice in an object, and arrays that size_t can index. */
  ghost predicate WellFormed(j: Json) {
    Addressable(j, true)
  }

  /** These names, and what the decoder makes of them. */
  ghost function WithDecoded(ks: iset<string>): iset<string> {
    iset k | k in ks || exists n :: n in ks && Decoded(n) == k
  }

  /** In no pair of corresponding objects two names, or what the decoder makes of them, differ in case only. */
  ghost predicate DecodedApart(a: Value, b: Value)
    decreases a
  {
    match (a, b)
    case (VArray(x), VArray(y)) => forall i :: 0 <= i < |x| && i < |y| ==> DecodedApart(x[i], y[i])
    case (VObject(p), VObject(q)) =>
      FoldInjective(WithDecoded(KeysOf(p, q))) && forall k :: k in p && k in q ==> DecodedApart(p[k], q[k])
    case _ => true
  }

  /** What is asked of names that meet: less where every name in which a path ends survives. */
  ghost predicate NamesFit(have: Json, want: Json, patchable: bool) {
    DecodedApart(Meaning(have), Meaning(want)) || (Apart(Meaning(have), Meaning(want)) && patchable)
  }

  lemma LeafExact(now: Json, have: Json, want: Json, caseSensitive: bool)
    requires Meaning(now) == Meaning(have) && (Replaced(have, want) || (!have.Array? && !have.Object?))
    ensures Reproduces(now, have, want, caseSensitive) && Patchable(have, want, true)
  {
    CreateCases("", have, want, caseSensitive);
    hide Create;
    hide ApplyPatch;
    OnePatch(now, Compose("replace", "", Some(want)), caseSensitive);
    ReplaceRoot(now, want, caseSensitive);
  }

  lemma {:induction false} RoundTrip(now: Json, have: Json, want: Json, caseSensitive: bool)
    requires WellFormed(now) && WellFormed(have) && WellFormed(want) && Meaning(now) == Meaning(have)
    requires NamesFit(have, want, Patchable(have, want, true))
    ensures Reproduces(now, have, want, caseSensitive) <==> Patchable(have, want, true)
    decreases Depth(have), 1
  {
    hide Reproduces;
    hide Patchable;
    hide NamesFit;
    if Replaced(have, want) || (!have.Array? && !have.Object?) {
      LeafExact(now, have, want, caseSensitive);
    } else if have.Array? {
      SameKindMeans(now, have, want);
      PatchableItems(have, want, true);
      ItemsMeanAlike(now, have);
      forall i | 0 <= i < Min(|have.items|, |want.items|)
        ensures Reproduces(now.items[i], have.items[i], want.items[i], caseSensitive) <==> Patchable(have.items[i], want.items[i], true)
      {
        ItemsFit(have, want, i);
        RoundTrip(now.items[i], have.items[i], want.items[i], caseSensitive);
      }
      ArrayExact(now, have, want, caseSensitive);
    } else {
      SameKindMeans(now, have, want);
      ObjectsRoundTrip(now, have, want, caseSensitive);
    }
  }

  lemma ItemsFit(have: Json, want: Json, i: nat)
    requires have.Array? && want.Array? && i < |have.items| && i < |want.items|
    requires NamesFit(have, want, Patchable(have, want, true))
    ensures NamesFit(have.items[i], want.items[i], Patchable(have.items[i], want.items[i], true))
  {
    PatchableItems(have, want, true);
    hide Patchable;
    assert Meaning(have).items[i] == Meaning(have.items[i]) && Meaning(want).items[i] == Meaning(want.items[i]);
  }

  lemma {:induction false} ObjectsRoundTrip(now: Json, have: Json, want: Json, caseSensitive: bool)
    requires now.Object? && have.Object? && want.Object?
    requires WellFormed(now) && WellFormed(have) && WellFormed(want) && Meaning(now) == Meaning(have)
    requires NamesFit(have, want, Patchable(have, want, true))
    ensures Reproduces(now, have, want, caseSensitive) <==> Patchable(have, want, true)
    decreases Depth(have), 0, 1
  {
    hide FoldInjective;
    hide Reproduces;
    hide Patchable;
    hide PatchableTurn;
    hide NamesFit;
    hide NamesThere;
    hide EndsIn;
    hide Shows;
    hide Fits;
    hide Result;
    hide RunTurns;
    hide TurnsOf;
    hide MembersMeaning;
    hide Unique;
    var ks := NamesOf(now, have, want);
    var ts := ObjectShows(now, have, want, ks, caseSensitive);
    EndsAmong(have, want, ts, ks);
    TurnsExact(now, have, want, ts, caseSensitive);
    ObjectExact(now, have, want, ts, ks, caseSensitive);
  }

  lemma {:induction false} TurnsExact(now: Json, have: Json, want: Json, ts: seq<Turn>, caseSensitive: bool)
    requires now.Object? && have.Object? && want.Object?
    requires WellFormed(now) && WellFormed(have) && WellFormed(want) && Meaning(now) == Meaning(have)
    requires NamesFit(have, want, Patchable(have, want, true)) && TurnsOf(ts, have.members, want.members)
    ensures forall i :: 0 <= i < |ts| ==> (Fits(Held(now.members), ts[i], caseSensitive) <==> PatchableTurn(ts[i]))
    decreases Depth(have), 0, 0
  {
    hide Patchable;
    hide PatchableTurn;
    hide NamesFit;
    hide Fits;
    hide Ready;
    hide TurnOf;
    hide Lookup;
    hide Depth;
    PatchableTurns(have, want, ts, true);
    DuplicateReady(now.members, have.members, want.members, ts);
    forall i | 0 <= i < |ts|
      ensures Fits(Held(now.members), ts[i], caseSensitive) <==> PatchableTurn(ts[i])
    {
      assert TurnOf(ts[i], have.members, want.members) && Ready(Held(now.members), ts[i]);
      MembersFit(have, want, ts[i]);
      TurnExact(now, have, want, ts[i], caseSensitive);
    }
  }

  /** The names that count for one pair of objects. */
  ghost function NamesThere(have: Json, want: Json): iset<string>
    requires have.Object? && want.Object?
  {
    var ks := KeysOf(MembersMeaning(have.members), MembersMeaning(want.members));
    if DecodedApart(Meaning(have), Meaning(want)) then WithDecoded(ks) else ks
  }

  lemma NamesOf(now: Json, have: Json, want: Json) returns (ks: iset<string>)
    requires now.Object? && have.Object? && want.Object?
    requires WellFormed(now) && WellFormed(have) && WellFormed(want) && Meaning(now) == Meaning(have)
    requires NamesFit(have, want, Patchable(have, want, true))
    ensures ks == NamesThere(have, want)
    ensures FoldInjective(ks) && Named(now.members, ks) && Named(have.members, ks) && Named(want.members, ks)
  {
    ks := NamesThere(have, want);
    hide MembersMeaning;
    hide Patchable;
    NamedBy(now.members, ks);
    NamedBy(have.members, ks);
    NamedBy(want.members, ks);
  }

  lemma EndsAmong(have: Json, want: Json, ts: seq<Turn>, ks: iset<string>)
    requires have.Object? && want.Object? && NamesFit(have, want, Patchable(have, want, true)) && ks == NamesThere(have, want)
    requires Named(have.members, ks) && Named(want.members, ks) && TurnsOf(ts, have.members, want.members)
    ensures (forall i :: 0 <= i < |ts| ==> EndsIn(ts[i], ks)) || Patchable(have, want, true)
  {
    hide Patchable;
    hide PatchableTurn;
    hide EndsIn;
    hide Lookup;
    KeysAmong(ts, have, want, ks);
    if DecodedApart(Meaning(have), Meaning(want)) {
      var names := KeysOf(MembersMeaning(have.members), MembersMeaning(want.members));
      forall k | IsKey(ts, k)
        ensures Decoded(k) in ks
      {
        LookupMeans(have.members, k);
        LookupMeans(want.members, k);
        assert k in names;
      }
    }
  }

  lemma MembersFit(have: Json, want: Json, t: Turn)
    requires have.Object? && want.Object? && TurnOf(t, have.members, want.members)
    requires NamesFit(have, want, Patchable(have, want, true)) && (Patchable(have, want, true) ==> PatchableTurn(t))
    ensures t.Common? ==> NamesFit(t.u, t.w, PatchableTurn(t))
  {
    hide FoldInjective;
    hide Lookup;
    hide Patchable;
    hide PatchableTurn;
    LookupMeans(have.members, t.key);
    LookupMeans(want.members, t.key);
  }

  lemma SameKindMeans(now: Json, have: Json, want: Json)
    requires Meaning(now) == Meaning(have) && !Replaced(have, want)
    ensures have.Array? ==> now.Array? && want.Array?
    ensures have.Object? ==> now.Object? && want.Object?
  {
  }

  lemma ItemsMeanAlike(now: Json, have: Json)
    requires now.Array? && have.Array? && Meaning(now) == Meaning(have)
    ensures |now.items| == |have.items| && forall i :: 0 <= i < |have.items| ==> Meaning(now.items[i]) == Meaning(have.items[i])
  {
    MeansItems(now, have.items);
  }

  lemma PartWellFormed(j: Json, k: string)
    requires j.Object? && WellFormed(j) && Lookup(j.members, k).Some?
    ensures UniqueKeys(j.members) && WellFormed(Lookup(j.members, k).value) && Depth(Lookup(j.members, k).value) < Depth(j)
  {
  }

  lemma {:induction false} TurnExact(now: Json, have: Json, want: Json, t: Turn, caseSensitive: bool)
    requires now.Object? && have.Object? && want.Object? && WellFormed(now) && WellFormed(have) && WellFormed(want)
    requires UniqueKeys(now.members) && TurnOf(t, have.members, want.members) && Ready(Held(now.members), t)
    requires t.Common? ==> NamesFit(t.u, t.w, PatchableTurn(t))
    ensures Fits(Held(now.members), t, caseSensitive) <==> PatchableTurn(t)
    decreases Depth(have), 0, 0, 0
  {
    hide NamesFit;
    hide Reproduces;
    hide Patchable;
    hide Survives;
    hide WellFormed;
    hide Lookup;
    hide Meaning;
    if t.Common? {
      EndsDecide(t.u, t.w, Survives(t.key));
      if !Replaced(t.u, t.w) {
        PartWellFormed(now, t.key);
        PartWellFormed(have, t.key);
        PartWellFormed(want, t.key);
        RoundTrip(Held(now.members)[t.key], t.u, t.w, caseSensitive);
      }
    }
  }

  /** Whether the name that leads to a node survives matters only where the node is replaced. */
  lemma EndsDecide(have: Json, want: Json, ends: bool)
    ensures Patchable(have, want, ends) == if Replaced(have, want) then ends else Patchable(have, want, true)
  {
  }

  /**
    The patches from one document to another, applied to a duplicate of the first,
    succeed and give the second if and only if every name in which a path ends
    survives the decoder. In each pair of corresponding objects the names, and what
    the decoder makes of them, must be different ones even when case is ignored.
   */
  lemma JsonPatchRoundTrip(have: Json, want: Json, duplicate: Json, caseSensitive: bool)
    requires WellFormed(have) && WellFormed(want) && WellFormed(duplicate) && Meaning(duplicate) == Meaning(have)
    requires DecodedApart(Meaning(have), Meaning(want))
    ensures var r := ApplyAll(duplicate, Create("", have, want, caseSensitive), caseSensitive);
      r.Patched? && r.status == 0 && Meaning(r.doc) == Meaning(want) <==> Patchable(have, want, true)
  {
    hide Create;
    hide ApplyAll;
    hide WellFormed;
    hide DecodedApart;
    hide Meaning;
    hide Patchable;
    RoundTrip(duplicate, have, want, caseSensitive);
  }

  /** Where they do survive, nothing need be asked of what the decoder would make of the others. */
  lemma PatchesSucceed(have: Json, want: Json, duplicate: Json, caseSensitive: bool)
    requires WellFormed(have) && WellFormed(want) && WellFormed(duplicate) && Meaning(duplicate) == Meaning(have)
    requires Apart(Meaning(have), Meaning(want)) && Patchable(have, want, true)
    ensures var r := ApplyAll(duplicate, Create("", have, want, caseSensitive), caseSensitive);
      r.Patched? && r.status == 0 && Meaning(r.doc) == Meaning(want)
  {
    hide Create;
    hide ApplyAll;
    hide WellFormed;
    hide Apart;
    hide Meaning;
    hide Patchable;
    RoundTrip(duplicate, have, want, caseSensitive);
  }

  const TILDE_NAME := Object([Member("a~b", Number(1))])

  lemma TildeNames()
    ensures Decoded("a~b") == "a~0" && !Survives("a~b") && FoldInjective(iset{"a~b", "a~0"})
  {
    TildeInKeyIsLost();
    SurvivingStays("a~b");
    assert Fold("a~b")[2] == 'b' && Fold("a~0")[2] == '0';
  }

  lemma TildeApart()
    ensures DecodedApart(Meaning(TILDE_NAME), Meaning(Object([])))
  {
    hide FoldInjective;
    hide Decoded;
    TildeNames();
    var p, q := MembersMeaning(TILDE_NAME.members), MembersMeaning([]);
    assert TILDE_NAME.members[1..] == [] && q == map[] && p == map["a~b" := VNumber(1)];
    assert forall k :: k in KeysOf(p, q) <==> k == "a~b";
    assert WithDecoded(KeysOf(p, q)) == iset{"a~b", "a~0"};
  }

  /** The patch that is to remove the one member of an object does not, whichever functions are used. */
  lemma TildeNameStays(caseSensitive: bool)
    ensures !Reproduces(TILDE_NAME, TILDE_NAME, Object([]), caseSensitive)
  {
    hide DecodedApart;
    hide Decoded;
    hide Survives;
    hide Create;
    hide ApplyAll;
    TildeNames();
    TildeApart();
    assert Lookup([], "a~b").None?;
    assert TILDE_NAME.members[0].key == "a~b";
    assert !Patchable(TILDE_NAME, Object([]), true);
    RoundTrip(TILDE_NAME, TILDE_NAME, Object([]), caseSensitive);
  }
}
