/**
  Which pointers lead where: a pointer is followed to a node exactly if it spells
  the path to that node, but for array indices that are not written as decimals.
 */
module PointerSpelling {
  import opened CStrings
  import opened Decimals
  import opened JsonValues
  import opened Pointers

  // ----- one token -----

  /** The token at the start of p. */
  function TokenOf(p: string): (t: string)
    ensures '/' !in t && p == t + SkipToken(p)
  {
    if AtEnd(p) then "" else [p[0]] + TokenOf(p[1..])
  }

  /** Up to the first slash two texts are the same, and behind it, exactly if they are as a whole. */
  lemma {:induction false} SplitsAtSlash(a: string, x: string, b: string, y: string, caseSensitive: bool)
    requires '/' !in a && '/' !in b && AtEnd(x) && AtEnd(y)
    ensures View(a + x, caseSensitive) == View(b + y, caseSensitive) <==>
      View(a, caseSensitive) == View(b, caseSensitive) && View(x, caseSensitive) == View(y, caseSensitive)
    decreases |a|
  {
    var p, q := a + x, b + y;
    if a == "" && b == "" {
      assert p == x && q == y;
    } else if a == "" || b == "" {
      EndMatters(a, x, b, y, caseSensitive);
    } else {
      assert p[0] == a[0] && q[0] == b[0] && p[1..] == a[1..] + x && q[1..] == b[1..] + y;
      SplitsAtSlash(a[1..], x, b[1..], y, caseSensitive);
      HeadView(p, q, caseSensitive);
      HeadView(a, b, caseSensitive);
    }
  }

  lemma EndMatters(a: string, x: string, b: string, y: string, caseSensitive: bool)
    requires '/' !in a && '/' !in b && AtEnd(x) && AtEnd(y) && ((a == "") != (b == ""))
    ensures View(a + x, caseSensitive) != View(b + y, caseSensitive) && View(a, caseSensitive) != View(b, caseSensitive)
  {
    assert |View(a, caseSensitive)| == |a| && |View(b, caseSensitive)| == |b|;
    var p, q := a + x, b + y;
    assert |View(p, caseSensitive)| == |p| && |View(q, caseSensitive)| == |q|;
    if p != "" && q != "" {
      OnlyItself(p[0], q[0], caseSensitive);
      OnlyItself(q[0], p[0], caseSensitive);
      HeadView(p, q, caseSensitive);
    }
  }

  /** A name is what a token spells exactly if the token is the encoding of the name, but for case when that is ignored. */
  lemma {:induction false} Matches(name: string, token: string, rest: string, caseSensitive: bool)
    requires '/' !in token && AtEnd(rest)
    ensures ComparePointers(name, token + rest, caseSensitive) <==> View(token, caseSensitive) == View(Encode(name), caseSensitive)
    decreases |token|
  {
    var p, e := token + rest, Encode(name);
    assert |View(token, caseSensitive)| == |token| && |View(e, caseSensitive)| == |e|;
    if name == "" || token == "" {
      assert token == "" ==> p == rest;
      assert token != "" ==> p[0] == token[0];
    } else if token[0] == '~' {
      MatchesTilde(name, token, rest, caseSensitive);
    } else {
      assert p[0] == token[0] && p[1..] == token[1..] + rest;
      assert e == EncodeChar(name[0]) + Encode(name[1..]);
      Matches(name[1..], token[1..], rest, caseSensitive);
      OnlyItself(token[0], e[0], caseSensitive);
      OnlyItself(name[0], token[0], caseSensitive);
      OnlyItself(token[0], name[0], caseSensitive);
      HeadView(token, e, caseSensitive);
      if name[0] != '~' && name[0] != '/' {
        assert e[0] == name[0] && e[1..] == Encode(name[1..]);
      }
    }
  }

  /** How a tilde in a pointer is compared. */
  lemma TildeStep(name: string, p: string, caseSensitive: bool)
    requires name != "" && p != "" && p[0] == '~'
    ensures ComparePointers(name, p, caseSensitive) <==>
      |p| > 1 && EncodeChar(name[0]) == ['~', p[1]] && ComparePointers(name[1..], p[2..], caseSensitive)
  {
    var e := EncodeChar(name[0]);
    if |p| > 1 && e == ['~', p[1]] { assert e[1] == p[1]; }
  }

  lemma ViewPair(c: char, x: string, d: char, y: string, caseSensitive: bool)
    ensures View(['~', c] + x, caseSensitive) == View(['~', d] + y, caseSensitive) <==>
      View([c], caseSensitive) == View([d], caseSensitive) && View(x, caseSensitive) == View(y, caseSensitive)
  {
    hide View;
    var p, q := ['~', c] + x, ['~', d] + y;
    assert p[1..] == [c] + x && q[1..] == [d] + y && p[1..][1..] == x && q[1..][1..] == y;
    HeadView(p, q, caseSensitive);
    HeadView(p[1..], q[1..], caseSensitive);
  }

  lemma {:induction false} MatchesTilde(name: string, token: string, rest: string, caseSensitive: bool)
    requires '/' !in token && AtEnd(rest) && name != "" && token != "" && token[0] == '~'
    ensures ComparePointers(name, token + rest, caseSensitive) <==> View(token, caseSensitive) == View(Encode(name), caseSensitive)
    decreases |token|, 0
  {
    hide View;
    hide ComparePointers;
    hide Encode;
    var p, e, n := token + rest, EncodeChar(name[0]), Encode(name[1..]);
    EncodeStep(name);
    TildeStep(name, p, caseSensitive);
    if |token| == 1 || |e| == 1 {
      TildeAlone(token, rest, e, n, caseSensitive);
    } else {
      assert p[1] == token[1] && p[2..] == token[2..] + rest && token == ['~', token[1]] + token[2..];
      Matches(name[1..], token[2..], rest, caseSensitive);
      ViewPair(token[1], token[2..], e[1], n, caseSensitive);
      DigitItself(token[1], e[1], caseSensitive);
    }
  }

  lemma EncodeStep(name: string)
    requires name != ""
    ensures Encode(name) == EncodeChar(name[0]) + Encode(name[1..])
  {
  }

  /** A tilde with nothing behind it, or a name that starts otherwise, is no match. */
  lemma TildeAlone(token: string, rest: string, e: string, n: string, caseSensitive: bool)
    requires '/' !in token && AtEnd(rest) && token != "" && token[0] == '~'
    requires e == "~0" || e == "~1" || (|e| == 1 && e[0] != '~' && e[0] != '/')
    requires |token| == 1 || |e| == 1
    ensures View(token, caseSensitive) != View(e + n, caseSensitive)
    ensures e != "~0" && e != "~1" ==> forall c :: e != ['~', c]
    ensures |token| == 1 && |token + rest| > 1 ==> (token + rest)[1] == '/'
  {
    var q := e + n;
    assert |View(token, caseSensitive)| == |token| && |View(q, caseSensitive)| == |q|;
    OnlyItself(q[0], '~', caseSensitive);
    HeadView(token, q, caseSensitive);
  }

  lemma DigitItself(c: char, d: char, caseSensitive: bool)
    requires IsDigit(d)
    ensures View([c], caseSensitive) == View([d], caseSensitive) <==> c == d
  {
    assert View([c], caseSensitive)[0] == (if caseSensitive then c else ToLower(c));
    assert View([d], caseSensitive)[0] == (if caseSensitive then d else ToLower(d));
    if c == d { assert [c] == [d]; }
  }

  // ----- array indices -----

  /** What the index decoder takes: nothing, a zero, or no zero and then anything from '0' on. */
  predicate TakenAsIndex(t: string) {
    t == "" || t == "0" || ('1' <= t[0] <= '9' && forall i :: 0 <= i < |t| ==> t[i] >= '0')
  }

  lemma {:induction false} ScanEnds(p: string, pos: nat, acc: nat, t: string)
    requires pos <= |t| <= |p| && p[..|t|] == t && AtEnd(p[|t|..]) && '/' !in t
    requires t == "" || t[0] <= '9'
    ensures ScanIndex(p, pos, acc).Some? <==> forall i :: pos <= i < |t| ==> t[i] >= '0'
    decreases |t| - pos
  {
    assert forall i :: 0 <= i < |t| ==> p[i] == t[i];
    if pos < |t| {
      if t[pos] >= '0' {
        ScanEnds(p, pos + 1, (10 * acc + DigitValue(p[pos])) % SIZE_LIMIT, t);
      } else {
        assert p[pos..][0] == t[pos];
      }
    } else if pos < |p| {
      assert p[|t|..][0] == p[pos] == '/';
    }
  }

  lemma IndexTaken(t: string, rest: string)
    requires '/' !in t && AtEnd(rest)
    ensures DecodeIndex(t + rest).Some? <==> TakenAsIndex(t)
  {
    var p := t + rest;
    if t != "" { assert p[0] == t[0] && p[1..] == t[1..] + rest; }
    assert p[..|t|] == t && p[|t|..] == rest;
    if t == "" || t[0] <= '9' {
      ScanEnds(p, 0, 0, t);
    } else {
      assert p[0..] == p;
    }
  }

  /** So "1a" is read as an index, as 59, and an empty token as the first element. */
  lemma NotAnIndex()
    ensures DecodeIndex("1a") == Some(59) && DecodeIndex("") == Some(0)
  {
    var p := "1a";
    assert p[2..] == "" && 'a' as int == 97;
    assert ScanIndex(p, 2, 59) == Some(59);
    assert ScanIndex(p, 1, 1) == ScanIndex(p, 2, 59);
    assert ScanIndex(p, 0, 0) == ScanIndex(p, 1, 1);
  }

  /** A token that section 4 of RFC 6901 allows for an array, or that starts with no digit. */
  ghost predicate IndexToken(t: string) {
    (t != "" && !IsDigit(t[0])) || exists n :: 0 <= n < SIZE_LIMIT && t == Decimal(n)
  }

  lemma DecodesToken(t: string, rest: string, i: nat, caseSensitive: bool)
    requires IndexToken(t) && '/' !in t && AtEnd(rest) && i < SIZE_LIMIT
    ensures DecodeIndex(t + rest) == Some(i) <==> View(t, caseSensitive) == View(Decimal(i), caseSensitive)
  {
    IndexTaken(t, rest);
    if t != "" && !IsDigit(t[0]) {
      assert |View(t, caseSensitive)| == |t|;
      HeadView(t, Decimal(i), caseSensitive);
      DigitItself(t[0], Decimal(i)[0], caseSensitive);
    } else {
      var n :| 0 <= n < SIZE_LIMIT && t == Decimal(n);
      DecodesDecimal(n, rest);
      SameDigits(t, Decimal(i), caseSensitive);
      ReadDecimal(n);
      ReadDecimal(i);
    }
  }

  lemma {:induction false} SameDigits(a: string, b: string, caseSensitive: bool)
    requires forall i :: 0 <= i < |b| ==> IsDigit(b[i])
    ensures View(a, caseSensitive) == View(b, caseSensitive) <==> a == b
    decreases |a|
  {
    assert |View(a, caseSensitive)| == |a| && |View(b, caseSensitive)| == |b|;
    if a != "" && b != "" {
      HeadView(a, b, caseSensitive);
      DigitItself(a[0], b[0], caseSensitive);
      SameDigits(a[1..], b[1..], caseSensitive);
    }
  }

  // ----- whole pointers -----

  /** At every array it comes to, the pointer goes on with such a token. */
  ghost predicate Canonical(j: Json, p: string, caseSensitive: bool)
    decreases |p|
  {
    if p == "" then true else
      var i := Step(j, p[1..], caseSensitive);
      p[0] == '/' && (j.Array? ==> IndexToken(TokenOf(p[1..]))) &&
      (i.Some? ==> Canonical(Children(j)[i.value], SkipToken(p[1..]), caseSensitive))
  }

  /** The token leads to the child that it spells. */
  lemma StepExact(j: Json, q: string, i: nat, caseSensitive: bool)
    requires Addressable(j, caseSensitive) && i < |Children(j)| && (j.Array? ==> IndexToken(TokenOf(q)))
    ensures Step(j, q, caseSensitive) == Some(i) <==> View(TokenOf(q), caseSensitive) == View(Token(j, i), caseSensitive)
  {
    hide View;
    hide Decimal;
    hide Encode;
    hide ComparePointers;
    hide DecodeIndex;
    var t, rest := TokenOf(q), SkipToken(q);
    match j {
      case Array(items) => DecodesToken(t, rest, i, caseSensitive);
      case Object(ms) =>
        forall k | 0 <= k < |ms|
          ensures ComparePointers(ms[k].key, q, caseSensitive) <==> View(t, caseSensitive) == View(Encode(ms[k].key), caseSensitive)
        {
          Matches(ms[k].key, t, rest, caseSensitive);
        }
        EncodedApart(ms, caseSensitive);
        assert FindByPointer(ms, q, caseSensitive) < |ms| ==> ComparePointers(ms[FindByPointer(ms, q, caseSensitive)].key, q, caseSensitive);
      case _ =>
    }
  }

  lemma EncodedApart(ms: seq<Member>, caseSensitive: bool)
    requires Addressable(Object(ms), caseSensitive)
    ensures forall i, j :: 0 <= i < |ms| && 0 <= j < |ms| && i != j ==>
      View(Encode(ms[i].key), caseSensitive) != View(Encode(ms[j].key), caseSensitive)
  {
    hide View;
    hide Encode;
    forall i, j | 0 <= i < |ms| && 0 <= j < |ms| && i != j
      ensures View(Encode(ms[i].key), caseSensitive) != View(Encode(ms[j].key), caseSensitive)
    {
      EncodedMatches(ms[i].key, ms[j].key, "", caseSensitive);
      assert Encode(ms[j].key) + "" == Encode(ms[j].key);
      Matches(ms[i].key, Encode(ms[j].key), "", caseSensitive);
    }
  }

  /** A pointer is followed to a node exactly if it is the text of the path to it, but for case when that is ignored. */
  lemma {:induction false} LocateExact(j: Json, p: string, pos: seq<nat>, caseSensitive: bool)
    requires Addressable(j, caseSensitive) && Canonical(j, p, caseSensitive)
    ensures Locate(j, p, caseSensitive) == Some(pos) <==>
      IsPosition(j, pos) && View(p, caseSensitive) == View(PathText(j, pos), caseSensitive)
    decreases |p|
  {
    hide View;
    hide Step;
    hide Token;
    Lengths(j, p, pos, caseSensitive);
    if p == "" || pos == [] {
    } else {
      var q, i := p[1..], Step(j, p[1..], caseSensitive);
      if i.Some? {
        LocateExact(Children(j)[i.value], SkipToken(q), pos[1..], caseSensitive);
      }
      if pos[0] < |Children(j)| {
        StepExact(j, q, pos[0], caseSensitive);
        if IsPosition(j, pos) { PathHead(j, p, pos, caseSensitive); }
      }
      assert pos == [pos[0]] + pos[1..];
    }
  }

  lemma Lengths(j: Json, p: string, pos: seq<nat>, caseSensitive: bool)
    ensures IsPosition(j, pos) && View(p, caseSensitive) == View(PathText(j, pos), caseSensitive) ==> (p == "" <==> pos == [])
  {
    assert |View(p, caseSensitive)| == |p|;
    if IsPosition(j, pos) { assert |View(PathText(j, pos), caseSensitive)| == |PathText(j, pos)|; }
  }

  lemma PathHead(j: Json, p: string, pos: seq<nat>, caseSensitive: bool)
    requires p != "" && p[0] == '/' && pos != [] && IsPosition(j, pos)
    ensures View(p, caseSensitive) == View(PathText(j, pos), caseSensitive) <==>
      View(TokenOf(p[1..]), caseSensitive) == View(Token(j, pos[0]), caseSensitive) &&
      View(SkipToken(p[1..]), caseSensitive) == View(PathText(Children(j)[pos[0]], pos[1..]), caseSensitive)
  {
    hide View;
    hide Token;
    var child, q := Children(j)[pos[0]], p[1..];
    var a, b, t := TokenOf(q), Token(j, pos[0]), PathText(Children(j)[pos[0]], pos[1..]);
    PathEnds(child, pos[1..]);
    assert PathText(j, pos) == "/" + (b + t) && ("/" + (b + t))[1..] == b + t;
    HeadView(p, PathText(j, pos), caseSensitive);
    SplitsAtSlash(a, SkipToken(q), b, t, caseSensitive);
  }

  lemma PathEnds(j: Json, pos: seq<nat>)
    requires IsPosition(j, pos)
    ensures AtEnd(PathText(j, pos))
  {
    hide Token;
    if pos != [] { assert PathText(j, pos)[0] == '/'; }
  }

  /** What does not start with a slash leads to the root, though section 3 of RFC 6901 allows the empty text only. */
  lemma NoSlashIsRoot(j: Json, p: string, caseSensitive: bool)
    requires p == "" || p[0] != '/'
    ensures Locate(j, p, caseSensitive) == Some([])
  {
  }
}
