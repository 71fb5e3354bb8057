/**
  JSON Merge Patch on meanings: the MergePatch function of section 2 of RFC 7396,
  the patch that generate_merge_patch aims at, and when the two are inverse.
 */
module MergeValues {
  import opened JsonValues
  import opened Members

  /** Section 2 of RFC 7396; None is a target that is not there. */
  function Rfc7396(target: Option<Value>, patch: Value): (r: Value)
    ensures patch.VObject? ==> r.VObject?
    decreases patch
  {
    match patch
    case VObject(p) =>
      var t := if target.Some? && target.value.VObject? then target.value.m else map[];
      VObject(map k | k in t.Keys + p.Keys && !(k in p && p[k] == VNull) ::
        if k in p then Rfc7396(if k in t then Some(t[k]) else None, p[k]) else t[k])
    case _ => patch
  }

  /** Applying a patch a second time changes nothing. */
  lemma {:induction false} MergeIdempotent(target: Option<Value>, patch: Value)
    ensures Rfc7396(Some(Rfc7396(target, patch)), patch) == Rfc7396(target, patch)
    decreases patch
  {
    if patch.VObject? {
      var p, r := patch.m, Rfc7396(target, patch).m;
      forall k | k in p && k in r
        ensures Rfc7396(Some(r[k]), p[k]) == r[k]
      {
        var t := if target.Some? && target.value.VObject? then target.value.m else map[];
        MergeIdempotent(if k in t then Some(t[k]) else None, p[k]);
      }
      assert Rfc7396(Some(VObject(r)), patch).m == r;
    }
  }

  /** The patch from one value to another; None when none is needed. */
  function Difference(have: Value, want: Value): (r: Option<Value>)
    ensures r.None? <==> have.VObject? && have == want
    ensures r.Some? ==> (r.value == VNull <==> want == VNull)
    decreases want
  {
    if !have.VObject? || !want.VObject? then Some(want) else
      var f, t := have.m, want.m;
      var patch := map k | k in f.Keys + t.Keys && !(k in f && k in t && f[k] == t[k]) ::
        if k !in t then VNull else if k !in f then t[k] else Difference(f[k], t[k]).value;
      assert patch == map[] ==> f == t by {
        if patch == map[] {
          assert forall k :: k in f.Keys + t.Keys ==> k !in patch;
        }
      }
      if patch == map[] then None else Some(VObject(patch))
  }

  /** No object in the value holds a null member (arrays may hold nulls). */
  predicate NoNullMember(v: Value)
    decreases v
  {
    v.VObject? ==> forall k :: k in v.m ==> v.m[k] != VNull && NoNullMember(v.m[k])
  }

  /** What a merge patch cannot express is a null member that has to appear. */
  predicate Expressible(have: Value, want: Value)
    decreases want
  {
    if !have.VObject? || !want.VObject? then NoNullMember(want) else
      forall k :: k in want.m ==>
        (k in have.m && have.m[k] == want.m[k]) ||
        (want.m[k] != VNull && if k in have.m then Expressible(have.m[k], want.m[k]) else NoNullMember(want.m[k]))
  }

  lemma {:induction false} MergeIntoNothing(target: Option<Value>, v: Value)
    requires target.Some? ==> !target.value.VObject?
    ensures Rfc7396(target, v) == v <==> NoNullMember(v)
    decreases v
  {
    if v.VObject? {
      var r := Rfc7396(target, v).m;
      forall k | k in v.m
        ensures Rfc7396(None, v.m[k]) == v.m[k] <==> NoNullMember(v.m[k])
      {
        MergeIntoNothing(None, v.m[k]);
      }
      if NoNullMember(v) {
        assert r == v.m;
      } else {
        var k :| k in v.m && !(v.m[k] != VNull && NoNullMember(v.m[k]));
        assert k !in r || r[k] != v.m[k];
      }
    }
  }

  /** Merging the generated patch gives the wanted value exactly when it is expressible. */
  lemma {:induction false} MergeDifference(have: Value, want: Value)
    requires Difference(have, want).Some?
    ensures Rfc7396(Some(have), Difference(have, want).value) == want <==> Expressible(have, want)
    decreases want
  {
    var patch := Difference(have, want).value;
    if !have.VObject? || !want.VObject? {
      if want.VObject? { MergeIntoNothing(Some(have), want); }
    } else {
      var f, t, r := have.m, want.m, Rfc7396(Some(have), patch).m;
      forall k | k in t
        ensures (k in r && r[k] == t[k]) <==> ((k in f && f[k] == t[k]) ||
                (t[k] != VNull && if k in f then Expressible(f[k], t[k]) else NoNullMember(t[k])))
      {
        if k in f {
          if f[k] != t[k] { MergeDifference(f[k], t[k]); }
        } else {
          MergeIntoNothing(None, t[k]);
        }
      }
      assert forall k :: k in r ==> k in t;
      if Expressible(have, want) {
        assert r == t;
      }
    }
  }

  // ----- names that meet -----

  function Under(m: map<string, Value>, k: string): Option<Value> {
    if k in m then Some(m[k]) else None
  }

  function MapOf(target: Option<Value>): map<string, Value> {
    if target.Some? && target.value.VObject? then target.value.m else map[]
  }

  /** No two names that meet when the patch is merged differ in case only. */
  ghost predicate MergeApart(target: Option<Value>, patch: Value)
    decreases patch
  {
    patch.VObject? ==>
      FoldInjective(KeysOf(MapOf(target), patch.m)) && forall k :: k in patch.m ==> MergeApart(Under(MapOf(target), k), patch.m[k])
  }

  /** Nor do they when it is merged again. */
  lemma {:induction false} MergeApartAgain(target: Option<Value>, patch: Value)
    requires MergeApart(target, patch)
    ensures MergeApart(Some(Rfc7396(target, patch)), patch)
    decreases patch
  {
    if patch.VObject? {
      var t, p, r := MapOf(target), patch.m, Rfc7396(target, patch).m;
      assert forall k :: k in KeysOf(r, p) ==> k in KeysOf(t, p);
      forall k | k in p
        ensures MergeApart(Under(r, k), p[k])
      {
        if p[k] != VNull {
          MergeApartAgain(Under(t, k), p[k]);
        }
      }
    }
  }

  /** Nor when the patch is the difference of two values with such names. */
  lemma {:induction false} DifferenceApart(have: Value, want: Value)
    requires Apart(have, want) && MergeApart(None, want) && Difference(have, want).Some?
    ensures MergeApart(Some(have), Difference(have, want).value)
    decreases want
  {
    if have.VObject? && want.VObject? {
      var f, t, patch := have.m, want.m, Difference(have, want).value.m;
      assert forall k :: k in KeysOf(f, patch) ==> k in KeysOf(f, t);
      forall k | k in patch
        ensures MergeApart(Under(f, k), patch[k])
      {
        if k in t && k in f { DifferenceApart(f[k], t[k]); }
      }
    }
  }
}
