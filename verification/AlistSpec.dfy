/**
  What the sorted table of alist.c means: the hash that stands in front of
  the name comparison, the blocks a search finds, and the map a table is.
 */
module AlistSpec {
  import opened CStrings
  import opened JsonValues

  /**
    The C strings whose hash is their first four bytes. The hash shifts plain chars,
    and where these are signed a second, third or fourth byte from 128 on sets all
    bits above it; that does no harm only if they were set anyway.
   */
  predicate IsName(s: string) {
    IsCString(s) && Packs(s)
  }

  predicate Packs(s: string) {
    forall i, j :: 0 <= j < i < 4 && ByteAt(s, i) >= 128 ==> ByteAt(s, j) == 255
  }

  // ----- the hash -----

  /** s[i] of the C string. */
  function ByteAt(s: string, i: nat): nat {
    if i < |s| then s[i] as int else 0
  }

  /** cs_alist_hash: up to four bytes, the first one on top, each as a signed char. */
  function Hash(s: string): nat {
    Extended(s, 0) * 0x100_0000 + Extended(s, 1) * 0x1_0000 + Extended(s, 2) * 0x100 + ByteAt(s, 3)
  }

  /** Byte i of the hash: s[i], or all ones when the sign of a later byte reaches it. */
  function Extended(s: string, i: nat): nat {
    if exists k :: i < k < 4 && ByteAt(s, k) >= 128 then 255 else ByteAt(s, i)
  }

  /** The mask that cs_alist_hash returns beside it: 0, 0xff000000, 0xffff0000, 0xffffff00 or 0xffffffff. */
  function Mask(s: string): nat {
    if ByteAt(s, 0) == 0 then 0
    else if ByteAt(s, 1) == 0 then 0xff00_0000
    else if ByteAt(s, 2) == 0 then 0xffff_0000
    else if ByteAt(s, 3) == 0 then 0xffff_ff00
    else 0xffff_ffff
  }

  /** hash & mask, for these five masks. */
  function Masked(hash: nat, mask: nat): nat {
    if mask == 0 then 0
    else if mask == 0xff00_0000 then hash / 0x100_0000 * 0x100_0000
    else if mask == 0xffff_0000 then hash / 0x1_0000 * 0x1_0000
    else if mask == 0xffff_ff00 then hash / 0x100 * 0x100
    else hash
  }

  /** The sign of strncmp(name, entry, strlen(name)). */
  function PrefixCompare(name: string, entry: string): int {
    if name == "" then 0
    else if entry == "" || entry[0] < name[0] then 1
    else if name[0] < entry[0] then -1
    else PrefixCompare(name[1..], entry[1..])
  }

  /** What the searches compute: masked hashes first, names only when those agree. */
  function SearchCompare(name: string, entry: string, entryHash: nat): int {
    var c := Masked(Hash(name), Mask(name)) - Masked(entryHash, Mask(name));
    if c == 0 then PrefixCompare(name, entry) else c
  }

  function Sign(c: int): int {
    if c < 0 then -1 else if c > 0 then 1 else 0
  }

  lemma HashBytes(s: string)
    requires IsName(s)
    ensures Hash(s) == ByteAt(s, 0) * 0x100_0000 + ByteAt(s, 1) * 0x1_0000 + ByteAt(s, 2) * 0x100 + ByteAt(s, 3)
  {
  }

  /** Masking keeps as many bytes as the mask has. */
  lemma MaskedBytes(a: nat, b: nat, c: nat, d: nat)
    requires a < 256 && b < 256 && c < 256 && d < 256
    ensures var h := a * 0x100_0000 + b * 0x1_0000 + c * 0x100 + d;
      Masked(h, 0xff00_0000) == a * 0x100_0000 &&
      Masked(h, 0xffff_0000) == a * 0x100_0000 + b * 0x1_0000 &&
      Masked(h, 0xffff_ff00) == a * 0x100_0000 + b * 0x1_0000 + c * 0x100
  {
    var h := a * 0x100_0000 + b * 0x1_0000 + c * 0x100 + d;
    assert h / 0x100_0000 == a;
    assert h / 0x1_0000 == a * 0x100 + b;
    assert h / 0x100 == a * 0x1_0000 + b * 0x100 + c;
  }

  /** strncmp on the first byte, and on the rest. */
  lemma PrefixStep(name: string, entry: string)
    requires IsCString(name) && IsCString(entry) && name != ""
    ensures ByteAt(name, 0) != ByteAt(entry, 0) ==>
      PrefixCompare(name, entry) == Sign(ByteAt(name, 0) - ByteAt(entry, 0))
    ensures ByteAt(name, 0) == ByteAt(entry, 0) ==>
      entry != "" && PrefixCompare(name, entry) == PrefixCompare(name[1..], entry[1..])
  {
  }

  /** The first byte of the name that the entry does not have decides. */
  lemma {:induction false} PrefixDiffers(name: string, entry: string, j: nat)
    requires IsCString(name) && IsCString(entry) && j < |name|
    requires forall i :: 0 <= i < j ==> ByteAt(name, i) == ByteAt(entry, i)
    requires ByteAt(name, j) != ByteAt(entry, j)
    ensures PrefixCompare(name, entry) == Sign(ByteAt(name, j) - ByteAt(entry, j))
    decreases j
  {
    PrefixStep(name, entry);
    if j > 0 {
      assert ByteAt(name, 0) == ByteAt(entry, 0);
      assert forall i :: 0 <= i < j ==> ByteAt(name[1..], i) == ByteAt(name, i + 1) && ByteAt(entry[1..], i) == ByteAt(entry, i + 1);
      PrefixDiffers(name[1..], entry[1..], j - 1);
    }
  }

  /** Packed bytes compare as the bytes do, the first one first. */
  lemma PackedOrder(a0: nat, a1: nat, a2: nat, a3: nat, b0: nat, b1: nat, b2: nat, b3: nat)
    requires a0 < 256 && a1 < 256 && a2 < 256 && a3 < 256 && b0 < 256 && b1 < 256 && b2 < 256 && b3 < 256
    ensures var c := (a0 * 0x100_0000 + a1 * 0x1_0000 + a2 * 0x100 + a3) - (b0 * 0x100_0000 + b1 * 0x1_0000 + b2 * 0x100 + b3);
      Sign(c) == if a0 != b0 then Sign(a0 - b0) else if a1 != b1 then Sign(a1 - b1)
                 else if a2 != b2 then Sign(a2 - b2) else Sign(a3 - b3)
  {
  }

  /**
    The masked hashes never change the answer: the comparison of the searches
    has the sign of strncmp on the length of the name.
   */
  lemma PrefilterAgrees(name: string, entry: string)
    requires IsName(name) && IsName(entry)
    ensures Sign(SearchCompare(name, entry, Hash(entry))) == PrefixCompare(name, entry)
  {
    hide PrefixCompare;
    hide Hash;
    hide Masked;
    hide Mask;
    var k := |name|;
    MaskedHashes(name, entry);
    SignOfPrefix(name, entry);
    PackedOrder(ByteAt(name, 0), ByteAt(name, 1), ByteAt(name, 2), ByteAt(name, 3),
                Kept(k, 0, entry), Kept(k, 1, entry), Kept(k, 2, entry), Kept(k, 3, entry));
    if k > 0 && ByteAt(name, 0) != ByteAt(entry, 0) {
      PrefixDiffers(name, entry, 0);
    } else if k > 1 && ByteAt(name, 1) != ByteAt(entry, 1) {
      PrefixDiffers(name, entry, 1);
    } else if k > 2 && ByteAt(name, 2) != ByteAt(entry, 2) {
      PrefixDiffers(name, entry, 2);
    } else if k > 3 && ByteAt(name, 3) != ByteAt(entry, 3) {
      PrefixDiffers(name, entry, 3);
    }
  }

  /** The byte of an entry that is left under the mask of a name of k bytes. */
  function Kept(k: nat, i: nat, entry: string): nat {
    if i < k then ByteAt(entry, i) else 0
  }

  lemma MaskedHashes(name: string, entry: string)
    requires IsName(name) && IsName(entry)
    ensures Masked(Hash(name), Mask(name)) ==
      ByteAt(name, 0) * 0x100_0000 + ByteAt(name, 1) * 0x1_0000 + ByteAt(name, 2) * 0x100 + ByteAt(name, 3)
    ensures var k := |name|;
      Masked(Hash(entry), Mask(name)) ==
        Kept(k, 0, entry) * 0x100_0000 + Kept(k, 1, entry) * 0x1_0000 + Kept(k, 2, entry) * 0x100 + Kept(k, 3, entry)
  {
    hide Hash;
    HashBytes(name);
    HashBytes(entry);
    MaskedBytes(ByteAt(name, 0), ByteAt(name, 1), ByteAt(name, 2), ByteAt(name, 3));
    MaskedBytes(ByteAt(entry, 0), ByteAt(entry, 1), ByteAt(entry, 2), ByteAt(entry, 3));
  }

  lemma HashesOfAny(name: string, entry: string)
    requires IsCString(name) && IsName(entry)
    ensures Masked(Hash(name), Mask(name)) == Hash(name)
    ensures var k := |name|;
      Masked(Hash(entry), Mask(name)) ==
        Kept(k, 0, entry) * 0x100_0000 + Kept(k, 1, entry) * 0x1_0000 + Kept(k, 2, entry) * 0x100 + Kept(k, 3, entry)
  {
    MaskedBytes(Extended(name, 0), Extended(name, 1), Extended(name, 2), ByteAt(name, 3));
    HashBytes(entry);
    MaskedBytes(ByteAt(entry, 0), ByteAt(entry, 1), ByteAt(entry, 2), ByteAt(entry, 3));
    assert forall i :: |name| <= i < 4 ==> Extended(name, i) == 0;
  }

  /** A name whose later byte spoils the byte at j comes out above an entry it is below. */
  lemma SpoiltHash(name: string, i: nat, j: nat) returns (entry: string)
    requires IsCString(name) && j < i < 4 && ByteAt(name, i) >= 128 && ByteAt(name, j) != 255
    requires forall k :: 0 <= k < j ==> ByteAt(name, k) == 255
    ensures IsName(entry) && Sign(SearchCompare(name, entry, Hash(entry))) != PrefixCompare(name, entry)
  {
    entry := name[..j] + [(name[j] as int + 1) as char];
    forall k: nat | k < j
      ensures ByteAt(entry, k) == 255
    {
      assert ByteAt(name, k) == 255 && entry[k] == name[k];
    }
    assert ByteAt(entry, j) == ByteAt(name, j) + 1;
    assert forall k :: j < k < 4 ==> ByteAt(entry, k) == 0;
    assert forall k :: 0 <= k < i ==> Extended(name, k) == 255;
    assert Extended(name, i) >= 128;
    HashesOfAny(name, entry);
    PrefixDiffers(name, entry, j);
    PackedOrder(Extended(name, 0), Extended(name, 1), Extended(name, 2), ByteAt(name, 3),
                Kept(|name|, 0, entry), Kept(|name|, 1, entry), Kept(|name|, 2, entry), Kept(|name|, 3, entry));
  }

  /** With signed chars the masked hashes agree with strncmp on all such entries exactly for such names. */
  lemma PrefilterExact(name: string)
    requires IsCString(name)
    ensures Packs(name) <==>
      forall entry :: IsName(entry) ==> Sign(SearchCompare(name, entry, Hash(entry))) == PrefixCompare(name, entry)
  {
    hide SearchCompare;
    hide PrefixCompare;
    hide Hash;
    if Packs(name) {
      forall entry | IsName(entry)
        ensures Sign(SearchCompare(name, entry, Hash(entry))) == PrefixCompare(name, entry)
      {
        PrefilterAgrees(name, entry);
      }
    } else {
      var i, j := FirstSpoilt(name);
      var entry := SpoiltHash(name, i, j);
    }
  }

  lemma FirstSpoilt(name: string) returns (i: nat, j: nat)
    requires !Packs(name)
    ensures j < i < 4 && ByteAt(name, i) >= 128 && ByteAt(name, j) != 255
    ensures forall k :: 0 <= k < j ==> ByteAt(name, k) == 255
  {
    var i', j' :| 0 <= j' < i' < 4 && ByteAt(name, i') >= 128 && ByteAt(name, j') != 255;
    i, j := i', if ByteAt(name, 0) != 255 then 0 else if ByteAt(name, 1) != 255 then 1 else 2;
  }

  lemma {:induction false} SignOfPrefix(name: string, entry: string)
    ensures Sign(PrefixCompare(name, entry)) == PrefixCompare(name, entry)
    decreases |name|
  {
    if name != "" && entry != "" { SignOfPrefix(name[1..], entry[1..]); }
  }

  lemma {:induction false} PrefixMeans(name: string, entry: string)
    ensures PrefixCompare(name, entry) == 0 <==> name <= entry
    ensures PrefixCompare(name, entry) > 0 <==> Less(entry, name)
    ensures PrefixCompare(name, entry) < 0 <==> Less(name, entry) && !(name <= entry)
    decreases |name|
  {
    if name != "" && entry != "" {
      PrefixMeans(name[1..], entry[1..]);
      assert name == [name[0]] + name[1..] && entry == [entry[0]] + entry[1..];
      assert name[0] == entry[0] ==> (name <= entry <==> name[1..] <= entry[1..]);
    }
  }

  /** Along a sorted table the comparison only ever goes down. */
  lemma {:induction false} PrefixMonotone(name: string, e: string, f: string)
    requires Less(e, f)
    ensures PrefixCompare(name, e) >= PrefixCompare(name, f)
    decreases |name|
  {
    SignOfPrefix(name, e);
    SignOfPrefix(name, f);
    if name != "" && e != "" && name[0] == e[0] == f[0] {
      PrefixMonotone(name[1..], e[1..], f[1..]);
    }
  }

  // ----- tables -----

  datatype Entry<T> = Entry(name: string, hash: nat, data: T)

  ghost predicate Ordered<T>(es: seq<Entry<T>>) {
    forall i, j :: 0 <= i < j < |es| ==> Less(es[i].name, es[j].name)
  }

  ghost predicate Hashed<T>(es: seq<Entry<T>>) {
    forall i :: 0 <= i < |es| ==> IsName(es[i].name) && es[i].hash == Hash(es[i].name)
  }

  /** The comparison of a name with the entry at i. */
  function Compared<T>(es: seq<Entry<T>>, name: string, i: nat): int
    requires i < |es|
  {
    PrefixCompare(name, es[i].name)
  }

  lemma Descends<T>(es: seq<Entry<T>>, name: string, i: nat, j: nat)
    requires Ordered(es) && i <= j < |es|
    ensures Compared(es, name, i) >= Compared(es, name, j)
  {
    if i < j { PrefixMonotone(name, es[i].name, es[j].name); }
  }

  /**
    The answer to a search: n entries from loc on are those that the name is a
    prefix of, everything before is less and everything behind is greater; the
    first of them is the name itself exactly if the count is negative.
   */
  ghost predicate Found<T>(es: seq<Entry<T>>, name: string, count: int, loc: nat) {
    var n := if count < 0 then -count else count;
    loc + n <= |es| &&
    (forall i :: 0 <= i < loc ==> Less(es[i].name, name)) &&
    (forall i :: loc <= i < loc + n ==> name <= es[i].name) &&
    (forall i :: loc + n <= i < |es| ==> Less(name, es[i].name) && !(name <= es[i].name)) &&
    (count < 0 <==> n > 0 && es[loc].name == name)
  }

  lemma SameLength<T>(es: seq<Entry<T>>, name: string, count: int, count': int, loc: nat)
    requires Found(es, name, count, loc) && Found(es, name, count', loc)
    ensures count == count'
  {
    var n, n' := if count < 0 then -count else count, if count' < 0 then -count' else count';
    assert forall i :: 0 <= i < |es| ==> (loc <= i < loc + n <==> i >= loc && name <= es[i].name);
    assert forall i :: 0 <= i < |es| ==> (loc <= i < loc + n' <==> i >= loc && name <= es[i].name);
    var last, last' := loc + n - 1, loc + n' - 1;
    assert n > 0 ==> name <= es[last].name;
    assert n' > 0 ==> name <= es[last'].name;
  }

  /** Nothing else answers the same search. */
  lemma FoundUnique<T>(es: seq<Entry<T>>, name: string, count: int, loc: nat, count': int, loc': nat)
    requires Found(es, name, count, loc) && Found(es, name, count', loc')
    ensures count == count' && loc == loc'
  {
    var n, n' := if count < 0 then -count else count, if count' < 0 then -count' else count';
    if loc < loc' {
      PrefixMeans(name, es[loc].name);
    } else if loc' < loc {
      PrefixMeans(name, es[loc'].name);
    } else {
      SameLength(es, name, count, count', loc);
    }
  }

  /** From the signs of the comparisons to the answer. */
  lemma FoundFromSigns<T>(es: seq<Entry<T>>, name: string, first: nat, behind: nat)
    requires first <= behind <= |es|
    requires forall i :: 0 <= i < first ==> Compared(es, name, i) > 0
    requires forall i :: first <= i < behind ==> Compared(es, name, i) == 0
    requires forall i :: behind <= i < |es| ==> Compared(es, name, i) < 0
    ensures var n := behind - first;
      Found(es, name, if n > 0 && |es[first].name| == |name| then -n else n, first)
  {
    forall i | 0 <= i < |es|
      ensures i < first ==> Less(es[i].name, name)
      ensures first <= i < behind ==> name <= es[i].name
      ensures behind <= i ==> Less(name, es[i].name) && !(name <= es[i].name)
    {
      assert Compared(es, name, i) == PrefixCompare(name, es[i].name);
      PrefixMeans(name, es[i].name);
    }
  }

  /** Only the first of the block can be the name itself. */
  lemma ExactIsFirst<T>(es: seq<Entry<T>>, name: string, count: int, loc: nat)
    requires Ordered(es) && Found(es, name, count, loc)
    ensures count < 0 <==> exists i :: 0 <= i < |es| && es[i].name == name
    ensures forall i :: 0 <= i < |es| && es[i].name == name ==> i == loc
  {
    LessIrreflexive(name);
    forall i | 0 <= i < |es| && es[i].name == name
      ensures i == loc && count < 0
    {
      PrefixMeans(name, name);
      if i > loc {
        PrefixMeans(name, es[loc].name);
      }
    }
  }

  // ----- a table is a map -----

  lemma SameName<T>(es: seq<Entry<T>>, i: nat, j: nat)
    requires Ordered(es) && i < |es| && j < |es| && es[i].name == es[j].name
    ensures i == j
  {
    LessIrreflexive(es[i].name);
  }

  ghost function AsMap<T>(es: seq<Entry<T>>): (m: map<string, T>)
    requires Ordered(es)
    ensures forall i :: 0 <= i < |es| ==> es[i].name in m && m[es[i].name] == es[i].data
    ensures forall name :: name in m ==> exists i :: 0 <= i < |es| && es[i].name == name
  {
    assert forall i, j :: 0 <= i < |es| && 0 <= j < |es| && es[i].name == es[j].name ==> i == j by {
      forall i, j | 0 <= i < |es| && 0 <= j < |es| && es[i].name == es[j].name
        ensures i == j
      {
        SameName(es, i, j);
      }
    }
    map i | 0 <= i < |es| :: es[i].name := es[i].data
  }

  /** The table after an entry went in at loc, in the place of one of that name or between two. */
  function PutAt<T>(es: seq<Entry<T>>, e: Entry<T>, loc: nat, exact: bool): (r: seq<Entry<T>>)
    requires loc <= |es| && (exact ==> loc < |es|)
  {
    es[..loc] + [e] + es[if exact then loc + 1 else loc..]
  }

  lemma PutOrdered<T>(es: seq<Entry<T>>, e: Entry<T>, count: int, loc: nat)
    requires Ordered(es) && Hashed(es) && Found(es, e.name, count, loc)
    requires IsName(e.name) && e.hash == Hash(e.name)
    ensures var r := PutAt(es, e, loc, count < 0); Ordered(r) && Hashed(r)
  {
    hide IsName;
    hide Hash;
    var r := PutAt(es, e, loc, count < 0);
    forall i | loc <= i < |es| && (count < 0 ==> i > loc)
      ensures Less(e.name, es[i].name)
    {
      AfterBlockStart(es, e.name, count, loc, i);
    }
    var shift := if count < 0 then 0 else 1;
    assert forall i :: 0 <= i < loc ==> r[i] == es[i];
    assert forall i :: loc < i < |r| ==> r[i] == es[i - shift];
    assert r[loc] == e;
  }

  lemma AfterBlockStart<T>(es: seq<Entry<T>>, name: string, count: int, loc: nat, i: nat)
    requires Ordered(es) && Found(es, name, count, loc) && loc <= i < |es| && (count < 0 ==> i > loc)
    ensures Less(name, es[i].name)
  {
    PrefixMeans(name, es[i].name);
    LessTotal(name, es[i].name);
    ExactIsFirst(es, name, count, loc);
    if name <= es[i].name { PrefixNotAbove(name, es[i].name); }
  }

  lemma {:induction false} PrefixNotAbove(a: string, b: string)
    requires a <= b
    ensures !Less(b, a)
  {
    if a != "" {
      assert a[1..] <= b[1..];
      PrefixNotAbove(a[1..], b[1..]);
    }
  }

  /** Both ways between the places of a table and the table after an insertion. */
  lemma OutOfPut<T>(es: seq<Entry<T>>, e: Entry<T>, loc: nat, exact: bool, i: nat)
    requires loc <= |es| && (exact ==> loc < |es|) && i < |PutAt(es, e, loc, exact)|
    ensures if i == loc then PutAt(es, e, loc, exact)[i] == e else PutAt(es, e, loc, exact)[i] in es
  {
    var r := PutAt(es, e, loc, exact);
    if i != loc { assert r[i] == es[if i < loc || exact then i else i - 1]; }
  }

  lemma IntoPut<T>(es: seq<Entry<T>>, e: Entry<T>, loc: nat, exact: bool, i: nat)
    requires loc <= |es| && (exact ==> loc < |es|) && i < |es| && !(exact && i == loc)
    ensures es[i] in PutAt(es, e, loc, exact)
  {
    assert es[i] == PutAt(es, e, loc, exact)[if i < loc || exact then i else i + 1];
  }

  /** An entry that is in both tables means the same in both. */
  lemma SharedEntry<T>(es: seq<Entry<T>>, r: seq<Entry<T>>, i: nat)
    requires Ordered(es) && Ordered(r) && i < |es| && es[i] in r
    ensures var name := es[i].name;
      name in AsMap(es) && name in AsMap(r) && AsMap(es)[name] == AsMap(r)[name]
  {
    hide AsMap;
    var k :| 0 <= k < |r| && r[k] == es[i];
    assert r[k].name in AsMap(r) && AsMap(r)[r[k].name] == r[k].data;
    assert es[i].name in AsMap(es) && AsMap(es)[es[i].name] == es[i].data;
  }

  lemma PutHas<T>(es: seq<Entry<T>>, e: Entry<T>, loc: nat, exact: bool, name: string)
    requires Ordered(es) && loc <= |es| && (exact ==> loc < |es| && es[loc].name == e.name)
    requires Ordered(PutAt(es, e, loc, exact))
    ensures var r := PutAt(es, e, loc, exact);
      (name in AsMap(r) <==> name == e.name || name in AsMap(es)) &&
      (name in AsMap(r) ==> AsMap(r)[name] == if name == e.name then e.data else AsMap(es)[name])
  {
    var r := PutAt(es, e, loc, exact);
    assert |r| > loc;
    hide Ordered;
    hide PutAt;
    hide AsMap;
    if name == e.name {
      OutOfPut(es, e, loc, exact, loc);
      assert r[loc].name in AsMap(r) && AsMap(r)[r[loc].name] == r[loc].data;
    } else {
      if name in AsMap(es) {
        var i :| 0 <= i < |es| && es[i].name == name;
        IntoPut(es, e, loc, exact, i);
        SharedEntry(es, r, i);
      }
      if name in AsMap(r) {
        var i :| 0 <= i < |r| && r[i].name == name;
        OutOfPut(es, e, loc, exact, i);
        SharedEntry(r, es, i);
      }
    }
  }

  lemma PutMap<T>(es: seq<Entry<T>>, e: Entry<T>, count: int, loc: nat)
    requires Ordered(es) && Found(es, e.name, count, loc)
    requires Ordered(PutAt(es, e, loc, count < 0))
    ensures AsMap(PutAt(es, e, loc, count < 0)) == AsMap(es)[e.name := e.data]
    ensures count < 0 <==> e.name in AsMap(es)
    ensures count < 0 ==> AsMap(es)[e.name] == es[loc].data
  {
    ExactIsFirst(es, e.name, count, loc);
    hide Ordered;
    hide PutAt;
    hide AsMap;
    var after := AsMap(PutAt(es, e, loc, count < 0));
    var want := AsMap(es)[e.name := e.data];
    forall name
      ensures name in after <==> name in want
      ensures name in after ==> after[name] == want[name]
    {
      PutHas(es, e, loc, count < 0, name);
    }
  }

  function DropAt<T>(es: seq<Entry<T>>, w: nat): seq<Entry<T>>
    requires w < |es|
  {
    es[..w] + es[w + 1..]
  }

  lemma DropOrdered<T>(es: seq<Entry<T>>, w: nat)
    requires Ordered(es) && Hashed(es) && w < |es|
    ensures Ordered(DropAt(es, w)) && Hashed(DropAt(es, w))
  {
  }

  lemma OutOfDrop<T>(es: seq<Entry<T>>, w: nat, i: nat)
    requires w < |es| && i < |DropAt(es, w)|
    ensures var k := if i < w then i else i + 1; k < |es| && DropAt(es, w)[i] == es[k]
  {
  }

  lemma IntoDrop<T>(es: seq<Entry<T>>, w: nat, i: nat)
    requires w < |es| && i < |es| && i != w
    ensures es[i] in DropAt(es, w)
  {
    assert es[i] == DropAt(es, w)[if i < w then i else i - 1];
  }

  lemma DropHas<T>(es: seq<Entry<T>>, w: nat, name: string)
    requires Ordered(es) && w < |es| && Ordered(DropAt(es, w))
    ensures var r := DropAt(es, w);
      (name in AsMap(r) <==> name != es[w].name && name in AsMap(es)) &&
      (name in AsMap(r) ==> AsMap(r)[name] == AsMap(es)[name])
  {
    var r := DropAt(es, w);
    hide Ordered;
    hide DropAt;
    hide AsMap;
    if name in AsMap(r) {
      var i :| 0 <= i < |r| && r[i].name == name;
      var k := if i < w then i else i + 1;
      OutOfDrop(es, w, i);
      SharedEntry(es, r, k);
      if name == es[w].name { SameName(es, k, w); }
    }
    if name in AsMap(es) && name != es[w].name {
      var i :| 0 <= i < |es| && es[i].name == name;
      IntoDrop(es, w, i);
      SharedEntry(es, r, i);
    }
  }

  lemma DropMap<T>(es: seq<Entry<T>>, w: nat)
    requires Ordered(es) && w < |es| && Ordered(DropAt(es, w))
    ensures AsMap(DropAt(es, w)) == AsMap(es) - {es[w].name}
  {
    hide Ordered;
    hide DropAt;
    hide AsMap;
    var after, want := AsMap(DropAt(es, w)), AsMap(es) - {es[w].name};
    forall name
      ensures name in after <==> name in want
      ensures name in after ==> after[name] == want[name]
    {
      DropHas(es, w, name);
    }
  }

  /** What removing a name comes to, found or not. */
  lemma Removal<T>(es: seq<Entry<T>>, name: string, count: int, loc: nat)
    requires Ordered(es) && Hashed(es) && Found(es, name, count, loc)
    ensures count < 0 <==> name in AsMap(es)
    ensures count < 0 ==> loc < |es| && AsMap(es)[name] == es[loc].data
    ensures count < 0 ==> Ordered(DropAt(es, loc)) && AsMap(DropAt(es, loc)) == AsMap(es) - {name}
    ensures count >= 0 ==> AsMap(es) == AsMap(es) - {name}
  {
    ExactIsFirst(es, name, count, loc);
    if count < 0 {
      DropOrdered(es, loc);
      DropMap(es, loc);
    }
  }

  ghost predicate FirstMatchAt<T>(es: seq<Entry<T>>, name: string, data: Option<T>, loc: nat) {
    loc <= |es| && (forall i :: 0 <= i < loc ==> !(name <= es[i].name)) &&
    (if loc < |es| then name <= es[loc].name && data == Some(es[loc].data) else data == None)
  }

  /** A search gives the least entry that the name is a prefix of, if there is any. */
  ghost predicate FirstMatch<T>(es: seq<Entry<T>>, name: string, data: Option<T>) {
    exists loc: nat :: FirstMatchAt(es, name, data, loc)
  }

  lemma FirstMatchFound<T>(es: seq<Entry<T>>, name: string, count: int, loc: nat, data: Option<T>)
    requires Ordered(es) && Found(es, name, count, loc)
    requires data == if count == 0 then None else Some(es[loc].data)
    ensures FirstMatch(es, name, data)
  {
    var at := if count == 0 then |es| else loc;
    forall i | 0 <= i < at
      ensures !(name <= es[i].name)
    {
      PrefixMeans(name, es[i].name);
    }
    assert FirstMatchAt(es, name, data, at);
  }

  // ----- capacity -----

  predicate SixTimesPowerOfTwo(n: nat) {
    n == 6 || (n > 6 && n % 2 == 0 && SixTimesPowerOfTwo(n / 2))
  }

  /** Before the first insertion there is no room; after it, one slot is spare and at most two thirds are free. */
  predicate CapacityOk(max: nat, total: nat) {
    if total == 0 then max == 0
    else max < total && SixTimesPowerOfTwo(total) && (total == 6 || total <= 3 * max)
  }

  /** check_alist_size: the new capacity. */
  function NewCapacity(max: nat, total: nat): nat {
    if total == 0 then 6
    else if max == total - 1 then total * 2
    else if total > 6 && max * 3 < total then total / 2
    else total
  }

  /** What is saved up for the next resize. */
  function Potential(max: nat, total: nat): nat {
    if 3 * max > 2 * total then 3 * max - 2 * total
    else if total > 6 && total > 2 * max then total - 2 * max
    else 0
  }

  lemma {:induction false} CapacityIsEven(n: nat)
    requires SixTimesPowerOfTwo(n)
    ensures n >= 6 && n % 2 == 0 && (n > 6 ==> n >= 12 && SixTimesPowerOfTwo(n / 2))
  {
    if n > 6 { CapacityIsEven(n / 2); }
  }

  /** An insertion, the size being checked before: room for the shift, and the resize is paid for. */
  lemma CapacityGrows(max: nat, total: nat, added: nat)
    requires CapacityOk(max, total) && added <= 1 && (max == 0 ==> added == 1)
    ensures var t := NewCapacity(max, total); max + 2 <= t && CapacityOk(max + added, t)
    ensures var t := NewCapacity(max, total);
      (if t == total then 0 else max) + Potential(max + added, t) <= Potential(max, total) + 4
  {
    if total > 0 { CapacityIsEven(total); }
  }

  /** A removal, the size being checked after it. */
  lemma CapacityShrinks(max: nat, total: nat)
    requires CapacityOk(max + 1, total)
    ensures var t := NewCapacity(max, total); CapacityOk(max, t) && t <= total
    ensures var t := NewCapacity(max, total);
      (if t == total then 0 else max) + Potential(max, t) <= Potential(max + 1, total) + 4
  {
    CapacityIsEven(total);
  }
}
