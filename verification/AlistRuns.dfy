/**
  Runs of the operations on one table: what it maps, what resizing has cost, and
  that nothing but the map is left of how it came about.
 */
module AlistRuns {
  import opened CStrings
  import opened AlistSpec
  import opened Alists

  /** add_to_alist, remove_from_alist and alist_pop. */
  datatype Op<T> = Add(name: string, item: T) | Remove(name: string) | Pop(which: int)

  predicate Allowed<T>(op: Op<T>) {
    !op.Pop? ==> IsName(op.name)
  }

  ghost function Below<T>(m: map<string, T>, name: string): set<string> {
    set k | k in m && Less(k, name)
  }

  /** How many names of the map come before this one. */
  ghost function Rank<T>(m: map<string, T>, name: string): nat {
    |Below(m, name)|
  }

  /** The map after an operation; a pop takes the name out that has that many before it. */
  ghost function Apply<T>(m: map<string, T>, op: Op<T>): map<string, T> {
    match op
    case Add(name, item) => m[name := item]
    case Remove(name) => m - {name}
    case Pop(which) => map k | k in m && Rank(m, k) != which :: m[k]
  }

  ghost function ApplyAll<T>(m: map<string, T>, ops: seq<Op<T>>): map<string, T>
    decreases |ops|
  {
    if ops == [] then m else ApplyAll(Apply(m, ops[0]), ops[1..])
  }

  ghost function Names<T>(es: seq<Entry<T>>, n: nat): set<string>
    requires n <= |es|
  {
    set i | 0 <= i < n :: es[i].name
  }

  lemma {:induction false} CountNames<T>(es: seq<Entry<T>>, n: nat)
    requires Ordered(es) && n <= |es|
    ensures |Names(es, n)| == n
  {
    if n > 0 {
      CountNames(es, n - 1);
      OneMore(es, n - 1);
    }
  }

  lemma OneMore<T>(es: seq<Entry<T>>, n: nat)
    requires Ordered(es) && n < |es|
    ensures Names(es, n + 1) == Names(es, n) + {es[n].name} && es[n].name !in Names(es, n)
  {
    hide Less;
    LessIrreflexive(es[n].name);
  }

  /** An entry stands where its rank says. */
  lemma RankAt<T>(es: seq<Entry<T>>, i: nat)
    requires Ordered(es) && i < |es|
    ensures Rank(AsMap(es), es[i].name) == i
  {
    var m, name := AsMap(es), es[i].name;
    CountNames(es, i);
    forall k
      ensures k in Below(m, name) <==> k in Names(es, i)
    {
      if k in Below(m, name) {
        var j :| 0 <= j < |es| && es[j].name == k;
        if j == i { LessIrreflexive(k); } else if j > i { LessAsymmetric(name, k); }
      }
    }
    assert Below(m, name) == Names(es, i);
  }

  lemma RankOf<T>(es: seq<Entry<T>>, name: string) returns (i: nat)
    requires Ordered(es) && name in AsMap(es)
    ensures i < |es| && es[i].name == name && Rank(AsMap(es), name) == i
  {
    i :| 0 <= i < |es| && es[i].name == name;
    RankAt(es, i);
  }

  /** alist_pop takes out the name of that rank, if there is one. */
  lemma PopMap<T>(es: seq<Entry<T>>, which: int)
    requires Ordered(es)
    ensures 0 <= which < |es| ==> Ordered(DropAt(es, which)) && AsMap(DropAt(es, which)) == Apply(AsMap(es), Pop(which))
    ensures !(0 <= which < |es|) ==> Apply(AsMap(es), Pop(which)) == AsMap(es)
  {
    hide Ordered;
    hide AsMap;
    hide Rank;
    var m := AsMap(es);
    forall k | k in m
      ensures Rank(m, k) < |es|
      ensures 0 <= which < |es| ==> (Rank(m, k) == which <==> k == es[which].name)
    {
      var i := RankOf(es, k);
      if 0 <= which < |es| { RankAt(es, which); }
    }
    if 0 <= which < |es| {
      DropStillOrdered(es, which);
      DropMap(es, which);
      assert Apply(m, Pop(which)) == m - {es[which].name};
    } else {
      assert Apply(m, Pop(which)) == m;
    }
  }

  lemma DropStillOrdered<T>(es: seq<Entry<T>>, w: nat)
    requires Ordered(es) && w < |es|
    ensures Ordered(DropAt(es, w))
  {
  }

  lemma StartsWith<T>(es: seq<Entry<T>>, fs: seq<Entry<T>>)
    requires Ordered(es) && Hashed(es) && Ordered(fs) && Hashed(fs) && AsMap(es) == AsMap(fs)
    ensures |es| <= |fs| && forall i :: 0 <= i < |es| ==> es[i] == fs[i]
  {
    hide Ordered;
    hide AsMap;
    hide Rank;
    hide Hash;
    hide IsName;
    var beyond := if |fs| < |es| then [es[|fs|]] else [];
    forall i | 0 <= i < |es|
      ensures i < |fs| && es[i] == fs[i]
    {
      RankAt(es, i);
      var j := RankOf(fs, es[i].name);
    }
  }

  /** A table is determined by what it maps. */
  lemma SameTable<T>(es: seq<Entry<T>>, fs: seq<Entry<T>>)
    requires Ordered(es) && Hashed(es) && Ordered(fs) && Hashed(fs) && AsMap(es) == AsMap(fs)
    ensures es == fs
  {
    hide AsMap;
    StartsWith(es, fs);
    StartsWith(fs, es);
  }

  method Perform<T>(a: Alist<T>, op: Op<T>)
    requires a.Valid() && Allowed(op)
    modifies a, a.list
    ensures a.Valid() && (a.list == old(a.list) || fresh(a.list))
    ensures AsMap(a.contents) == Apply(old(AsMap(a.contents)), op) && a.ops <= old(a.ops) + 1
  {
    match op {
      case Add(name, item) =>
        var displaced := a.AddToAlist(name, item);
      case Remove(name) =>
        var removed := a.RemoveFromAlist(name);
      case Pop(which) =>
        PopMap(a.contents, which);
        var data := a.AlistPop(which);
    }
  }

  /** Over any run the table is the map, and resizing moves at most four entries per operation. */
  method Run<T>(a: Alist<T>, ops: seq<Op<T>>)
    requires a.Valid() && forall i :: 0 <= i < |ops| ==> Allowed(ops[i])
    modifies a, a.list
    ensures a.Valid() && (a.list == old(a.list) || fresh(a.list))
    ensures AsMap(a.contents) == ApplyAll(old(AsMap(a.contents)), ops)
    ensures a.moved <= 4 * a.ops <= 4 * (old(a.ops) + |ops|)
  {
    hide Ordered;
    hide AsMap;
    hide Apply;
    var i := 0;
    assert ops[0..] == ops;
    while i < |ops|
      invariant 0 <= i <= |ops| && a.Valid() && (a.list == old(a.list) || fresh(a.list))
      invariant ApplyAll(AsMap(a.contents), ops[i..]) == ApplyAll(old(AsMap(a.contents)), ops)
      invariant a.ops <= old(a.ops) + i
    {
      assert ops[i..][1..] == ops[i + 1..];
      Perform(a, ops[i]);
      i := i + 1;
    }
  }

  /** Two histories that come to the same map leave the same table. */
  method HistoryForgotten<T>(a: Alist<T>, b: Alist<T>, x: seq<Op<T>>, y: seq<Op<T>>)
    requires a != b && a.list != b.list && a.Valid() && b.Valid()
    requires (forall i :: 0 <= i < |x| ==> Allowed(x[i])) && forall i :: 0 <= i < |y| ==> Allowed(y[i])
    requires ApplyAll(AsMap(a.contents), x) == ApplyAll(AsMap(b.contents), y)
    modifies a, a.list, b, b.list
    ensures a.Valid() && b.Valid() && a.contents == b.contents
  {
    hide AsMap;
    hide ApplyAll;
    Run(a, x);
    Run(b, y);
    SameTable(a.contents, b.contents);
  }
}
