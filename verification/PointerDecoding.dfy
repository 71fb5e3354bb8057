/**
  decode_pointer_inplace, which the patch code runs over the last token of a path.
  It never copies an ordinary character down, so it undoes encode_string_as_pointer
  for some keys only; which ones is stated exactly.
 */
module PointerDecoding {
  import opened Sequences
  import opened CStrings
  import opened Pointers

  /**
    The loop from read position r and write position w; `buf` is the string being
    overwritten. An invalid escape leaves what has been written so far in place.
   */
  function DecodeLoop(buf: string, r: nat, w: nat): string
    requires w <= r <= |buf|
    decreases |buf| - r
  {
    if r == |buf| then buf[..w]
    else if buf[r] != '~' then DecodeLoop(buf, r + 1, w + 1)
    else if r + 1 < |buf| && buf[r + 1] == '0' then DecodeLoop(buf[w := '~'], r + 2, w + 1)
    else if r + 1 < |buf| && buf[r + 1] == '1' then DecodeLoop(buf[w + 1 := '/'], r + 2, w + 1)
    else buf
  }

  function Decode(s: string): string {
    DecodeLoop(s, 0, 0)
  }

  /** The loop over the bytes of a C string; `n` is the place of its terminator. */
  method DecodePointerInPlace(a: array<char>, n: nat)
    requires n < a.Length && a[n] == NUL && NUL !in a[..n]
    modifies a
    ensures Truncate(a[..]) == Decode(old(a[..n]))
  {
    var r, w := 0, 0;
    while r < n
      invariant w <= r <= n && a[n] == NUL && NUL !in a[..n]
      invariant DecodeLoop(a[..n], r, w) == Decode(old(a[..n]))
    {
      ghost var before := a[..n];
      if a[r] == '~' {
        if a[r + 1] == '0' {
          a[w] := '~';
          assert a[..n] == before[w := '~'];
        } else if a[r + 1] == '1' {
          a[w + 1] := '/';
          assert a[..n] == before[w + 1 := '/'];
        } else {
          assert a[..] == a[..n] + [NUL] + a[n + 1..];
          TruncateCString(a[..n], a[n + 1..]);
          return;
        }
        r := r + 1;
      }
      r, w := r + 1, w + 1;
    }
    ghost var decoded := a[..w];
    a[w] := NUL;
    assert a[..] == decoded + [NUL] + a[w + 1..];
    TruncateCString(decoded, a[w + 1..]);
  }

  /** The keys that come back: no slash, and every byte after a tilde happens to be in place. */
  predicate Survives(key: string) {
    '/' !in key && forall i :: 0 <= i < |key| && key[i] != '~' ==> Encode(key)[i] == key[i]
  }

  lemma {:induction false} PrefixStays(buf: string, r: nat, w: nat, i: nat)
    requires i < w <= r <= |buf|
    ensures i < |DecodeLoop(buf, r, w)| && DecodeLoop(buf, r, w)[i] == buf[i]
    decreases |buf| - r
  {
    if r < |buf| {
      if buf[r] != '~' { PrefixStays(buf, r + 1, w + 1, i); }
      else if r + 1 < |buf| && buf[r + 1] == '0' { PrefixStays(buf[w := '~'], r + 2, w + 1, i); }
      else if r + 1 < |buf| && buf[r + 1] == '1' { PrefixStays(buf[w + 1 := '/'], r + 2, w + 1, i); }
    }
  }

  /** The key read so far is `done`; `buf` still holds the encoding from the write position on. */
  ghost predicate Decoding(buf: string, enc: string, done: string) {
    |buf| == |enc| && |done| <= |enc| &&
    (forall i :: 0 <= i < |done| ==> buf[i] == if done[i] == '~' then '~' else enc[i]) &&
    (forall i :: |done| <= i < |enc| ==> buf[i] == enc[i])
  }

  lemma DecodesChar(buf: string, enc: string, done: string, r: nat, c: char, rest: string)
    returns (buf': string, r': nat)
    requires Decoding(buf, enc, done) && |done| <= r <= |enc|
    requires c != '/' && enc[r..] == EncodeChar(c) + rest
    ensures Decoding(buf', enc, done + [c]) && |done| + 1 <= r' <= |enc| && enc[r'..] == rest
    ensures DecodeLoop(buf, r, |done|) == DecodeLoop(buf', r', |done| + 1)
  {
    buf', r' := if c == '~' then buf[|done| := '~'] else buf, r + |EncodeChar(c)|;
    assert buf[r] == enc[r..][0] == EncodeChar(c)[0];
    if c == '~' { assert buf[r + 1] == enc[r..][1] == '0'; }
    assert enc[r'..] == enc[r..][|EncodeChar(c)|..];
  }

  lemma EncodeHead(plain: string, rest: string)
    requires plain != []
    ensures Encode(plain + rest) == EncodeChar(plain[0]) + Encode(plain[1..] + rest)
  {
    assert (plain + rest)[0] == plain[0] && (plain + rest)[1..] == plain[1..] + rest;
  }

  /** Up to its first slash the key is read character by character. */
  lemma {:induction false} DecodesPlain(buf: string, enc: string, done: string, r: nat, plain: string, rest: string)
    returns (buf': string, r': nat)
    requires Decoding(buf, enc, done) && |done| <= r <= |enc|
    requires '/' !in plain && enc[r..] == Encode(plain + rest)
    ensures Decoding(buf', enc, done + plain) && |done + plain| <= r' <= |enc| && enc[r'..] == Encode(rest)
    ensures DecodeLoop(buf, r, |done|) == DecodeLoop(buf', r', |done + plain|)
    decreases |plain|
  {
    hide Decoding;
    hide DecodeLoop;
    hide Encode;
    if plain == [] {
      assert done + plain == done && plain + rest == rest;
      buf', r' := buf, r;
    } else {
      var c, more := plain[0], plain[1..];
      EncodeHead(plain, rest);
      var buf1, r1 := DecodesChar(buf, enc, done, r, c, Encode(more + rest));
      buf', r' := DecodesPlain(buf1, enc, done + [c], r1, more, rest);
      assert done + [c] + more == done + plain;
    }
  }

  function FirstSlash(s: string): (i: nat)
    ensures i <= |s| && '/' !in s[..i] && (i < |s| ==> s[i] == '/')
  {
    if s == [] || s[0] == '/' then 0 else 1 + FirstSlash(s[1..])
  }

  /** Decoding undoes encoding exactly for the keys that survive. */
  lemma DecodeUndoesEncode(key: string)
    ensures Decode(Encode(key)) == key <==> Survives(key)
  {
    var n := FirstSlash(key);
    var plain, rest := key[..n], key[n..];
    var enc := Encode(key);
    assert key == plain + rest && enc[0..] == enc;
    var buf, r := DecodesPlain(enc, enc, [], 0, plain, rest);
    assert [] + plain == plain;
    if rest == [] {
      assert plain == key && Decode(enc) == buf[..n];
    } else {
      SlashIsLost(buf, enc, plain, r, rest);
      assert Decode(enc)[n] != '/' == key[n];
    }
  }

  lemma SlashIsLost(buf: string, enc: string, plain: string, r: nat, rest: string)
    requires Decoding(buf, enc, plain) && |plain| <= r <= |enc| && '/' !in enc
    requires rest != [] && rest[0] == '/' && enc[r..] == Encode(rest)
    ensures var d := DecodeLoop(buf, r, |plain|); |plain| < |d| && d[|plain|] != '/'
  {
    var w := |plain|;
    assert Encode(rest) == "~1" + Encode(rest[1..]);
    assert buf[r] == enc[r..][0] == '~' && buf[r + 1] == enc[r..][1] == '1';
    PrefixStays(buf[w + 1 := '/'], r + 2, w + 1, w);
    assert buf[w] == enc[w];
  }

  /** A string without a tilde is left alone. */
  lemma {:induction false} DecodePlain(s: string)
    requires '~' !in s
    ensures Decode(s) == s
  {
    DecodePlainFrom(s, 0);
  }

  lemma {:induction false} DecodePlainFrom(s: string, r: nat)
    requires '~' !in s && r <= |s|
    ensures DecodeLoop(s, r, r) == s
    decreases |s| - r
  {
    if r < |s| { DecodePlainFrom(s, r + 1); }
  }

  lemma {:induction false} EncodePlain(s: string)
    requires '~' !in s && '/' !in s
    ensures Encode(s) == s
  {
    if s != [] { EncodePlain(s[1..]); }
  }

  /** RFC 6901 asks for "a~b" back; the decoder leaves the escape digit in the key. */
  lemma TildeInKeyIsLost()
    ensures Decode(Encode("a~b")) == "a~0"
  {
    assert Encode("a~b"[1..][1..][1..]) == [];
    assert Encode("a~b"[1..][1..]) == "b";
    assert Encode("a~b"[1..]) == "~0b";
    assert Encode("a~b") == "a~0b";
    var s := "a~0b";
    assert DecodeLoop(s, 4, 3) == s[..3] == "a~0";
    assert s[1 := '~'] == s;
    assert DecodeLoop(s, 3, 2) == DecodeLoop(s, 4, 3);
    assert DecodeLoop(s, 1, 1) == DecodeLoop(s, 3, 2);
  }

  // ----- decoding again and again -----

  /** What a name becomes as the last token of a path. */
  function Decoded(key: string): string {
    Decode(Encode(key))
  }

  lemma {:induction false} EncodeConcat(a: string, b: string)
    ensures Encode(a + b) == Encode(a) + Encode(b)
  {
    hide Encode;
    hide EncodeChar;
    if a == [] {
      NothingEncoded();
      assert a + b == b;
    } else {
      EncodeRest(a);
      EncodeRest(a + b);
      assert (a + b)[0] == a[0] && (a + b)[1..] == a[1..] + b;
      EncodeConcat(a[1..], b);
      Append(EncodeChar(a[0]), Encode(a[1..]), Encode(b));
    }
  }

  lemma NothingEncoded()
    ensures Encode([]) == []
  {
  }

  /** The character at i does not come back. */
  predicate Spoilt(key: string, i: nat)
    requires i < |key|
  {
    key[i] == '/' || (key[i] != '~' && Encode(key)[i] != key[i])
  }

  function FirstSpoilt(key: string): (n: nat)
    ensures n <= |key| && (n < |key| ==> Spoilt(key, n))
    ensures forall i :: 0 <= i < n ==> !Spoilt(key, i)
  {
    SpoiltFrom(key, 0)
  }

  function SpoiltFrom(key: string, from: nat): (n: nat)
    requires from <= |key|
    ensures from <= n <= |key| && (n < |key| ==> Spoilt(key, n))
    ensures forall i :: from <= i < n ==> !Spoilt(key, i)
    decreases |key| - from
  {
    if from == |key| || Spoilt(key, from) then from else SpoiltFrom(key, from + 1)
  }

  lemma SurvivesUnspoilt(key: string)
    ensures Survives(key) <==> FirstSpoilt(key) == |key|
  {
    hide Encode;
    var n := FirstSpoilt(key);
    if n < |key| {
      assert key[n] in key;
    } else {
      forall i | 0 <= i < |key|
        ensures key[i] != '/' && (key[i] != '~' ==> Encode(key)[i] == key[i])
      {
        assert !Spoilt(key, i);
      }
    }
  }

  /** One character more, a slash included: the write position moves on behind what the encoding has there. */
  lemma DecodesOn(buf: string, enc: string, done: string, r: nat, c: char, rest: string)
    returns (last: string, r': nat)
    requires Decoding(buf, enc, done) && |done| <= r <= |enc| && c != '~'
    requires enc[r..] == EncodeChar(c) + rest
    ensures |done| + 1 <= r' <= |last| && last[..|done|] == buf[..|done|] && last[|done|] == enc[|done|]
    ensures DecodeLoop(buf, r, |done|) == DecodeLoop(last, r', |done| + 1)
  {
    if c == '/' {
      assert buf[r] == enc[r..][0] == '~' && buf[r + 1] == enc[r..][1] == '1';
      last, r' := buf[|done| + 1 := '/'], r + 2;
    } else {
      assert buf[r] == enc[r..][0] == c;
      last, r' := buf, r + 1;
    }
  }

  lemma PrefixDecoded(last: string, r: nat, w: nat)
    requires w <= r <= |last|
    ensures w <= |DecodeLoop(last, r, w)| && DecodeLoop(last, r, w)[..w] == last[..w]
  {
    var d := DecodeLoop(last, r, w);
    if w > 0 { PrefixStays(last, r, w, w - 1); }
    forall i | 0 <= i < w
      ensures i < |d| && d[i] == last[i]
    {
      PrefixStays(last, r, w, i);
    }
  }

  lemma UnspoiltPrefix(key: string, n: nat, buf: string)
    requires n <= |key| && (forall i :: 0 <= i < n ==> !Spoilt(key, i)) && Decoding(buf, Encode(key), key[..n])
    ensures '/' !in key[..n] && buf[..n] == key[..n]
  {
    hide Encode;
    forall i | 0 <= i < n
      ensures key[..n][i] != '/' && buf[i] == key[i]
    {
      assert key[..n][i] == key[i] && !Spoilt(key, i);
    }
  }

  /** Up to the first spoilt character a name stays, and that one becomes what the encoding has there. */
  lemma DecodedUpTo(key: string)
    requires !Survives(key)
    ensures var n, d := FirstSpoilt(key), Decoded(key);
      n < |key| && |d| > n && d[..n] == key[..n] && d[n] == Encode(key)[n]
  {
    hide Survives;
    hide Encode;
    hide DecodeLoop;
    hide Decoding;
    hide FirstSpoilt;
    SurvivesUnspoilt(key);
    var n, enc := FirstSpoilt(key), Encode(key);
    var plain, rest := key[..n], key[n..];
    NoSlashBefore(key, n);
    assert key == plain + rest && enc[0..] == enc && [] + plain == plain;
    NothingDecoded(enc);
    var buf, r := DecodesPlain(enc, enc, [], 0, plain, rest);
    UnspoiltPrefix(key, n, buf);
    EncodeRest(rest);
    var last, r' := DecodesOn(buf, enc, plain, r, key[n], Encode(rest[1..]));
    PrefixDecoded(last, r', n + 1);
    var d := Decoded(key);
    assert d == DecodeLoop(last, r', n + 1) by { assert enc == Encode(key); }
    assert d[..n + 1] == last[..n + 1];
    assert d[..n] == d[..n + 1][..n] == last[..n + 1][..n] == last[..n];
    assert d[n] == d[..n + 1][n] == last[..n + 1][n] == last[n];
  }

  lemma NoSlashBefore(key: string, n: nat)
    requires n <= |key| && forall i :: 0 <= i < n ==> !Spoilt(key, i)
    ensures '/' !in key[..n]
  {
    hide Encode;
    forall i | 0 <= i < n
      ensures key[..n][i] != '/'
    {
      assert !Spoilt(key, i);
    }
  }

  lemma NothingDecoded(enc: string)
    ensures Decoding(enc, enc, []) && Decode(enc) == DecodeLoop(enc, 0, 0)
  {
  }

  lemma EncodeRest(s: string)
    requires s != []
    ensures Encode(s) == EncodeChar(s[0]) + Encode(s[1..])
  {
  }

  /** Decoding a second time spoils less: what comes out of it can only get better. */
  lemma DecodedIsBetter(key: string)
    requires !Survives(key)
    ensures FirstSpoilt(Decoded(key)) > FirstSpoilt(key)
  {
    DecodedUpTo(key);
    hide Decoded;
    hide Survives;
    hide Encode;
    var n, d := FirstSpoilt(key), Decoded(key);
    forall i | 0 <= i <= n
      ensures !Spoilt(d, i)
    {
      UnspoiltAfter(key, d, n, i);
    }
  }

  lemma UnspoiltAfter(key: string, d: string, n: nat, i: nat)
    requires i <= n < |key| && n < |d| && d[..n] == key[..n] && d[n] == Encode(key)[n]
    requires Spoilt(key, n) && forall j :: 0 <= j < n ==> !Spoilt(key, j)
    ensures !Spoilt(d, i)
  {
    var p := key[..n];
    EncodeConcat(p, key[n..]);
    EncodeConcat(p, d[n..]);
    assert key == p + key[n..] && d == p + d[n..];
    assert Encode(key)[n] in Encode(key);
    EncodeRest(key[n..]);
    hide Encode;
    if i < n {
      assert d[i] == d[..n][i] == key[..n][i] == key[i] && !Spoilt(key, i);
      assert Encode(d)[i] == Encode(p)[i] == Encode(key)[i];
    } else if |Encode(p)| > n {
      assert Encode(d)[n] == Encode(p)[n] == Encode(key)[n];
    } else {
      assert Encode(key)[n] == Encode(key[n..])[0] == EncodeChar(key[n])[0];
    }
  }

  /** Each of the names is what some of them is decoded to. */
  ghost predicate AllDecoded(names: set<string>) {
    forall n :: n in names ==> IsDecoded(names, n)
  }

  ghost predicate IsDecoded(names: set<string>, n: string) {
    exists k :: k in names && Decoded(k) == n
  }

  lemma Preimage(names: set<string>, n: string) returns (k: string)
    requires IsDecoded(names, n)
    ensures k in names && Decoded(k) == n
  {
    k :| k in names && Decoded(k) == n;
  }

  lemma EachIsDecoded(names: set<string>, n: string)
    requires AllDecoded(names) && n in names
    ensures IsDecoded(names, n)
  {
    hide IsDecoded;
  }

  /** Such names survive: a spoilt one would come from one spoilt earlier, and so on. */
  lemma AllDecodedSurvive(names: set<string>)
    requires AllDecoded(names)
    ensures forall n :: n in names ==> Survives(n)
  {
    hide AllDecoded;
    hide FirstSpoilt;
    forall n | n in names
      ensures Survives(n)
    {
      if !Survives(n) {
        SpoiltLate(names, |n|, n);
        SurvivesUnspoilt(n);
      }
    }
  }

  lemma {:induction false} SpoiltLate(names: set<string>, bound: nat, n: string)
    requires AllDecoded(names) && n in names && !Survives(n)
    ensures FirstSpoilt(n) >= bound
  {
    hide AllDecoded;
    hide Decoded;
    hide Survives;
    hide FirstSpoilt;
    if bound > 0 {
      EachIsDecoded(names, n);
      var k := Preimage(names, n);
      SurvivingStays(k);
      SpoiltLate(names, bound - 1, k);
      DecodedIsBetter(k);
    }
  }

  lemma SurvivingStays(key: string)
    ensures Decoded(key) == key <==> Survives(key)
  {
    DecodeUndoesEncode(key);
  }
}
