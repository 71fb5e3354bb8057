/**
  When minifying the formatted text of a tree gives its unformatted text.
 */
module MinifyText {
  import opened Sequences
  import opened Decimals
  import opened JsonValues
  import opened JsonText
  import opened Minify
  import R = ParseRoundTrip

  predicate EndsInBackslash(s: string) {
    s != "" && s[|s| - 1] == BACKSLASH
  }

  /**
    No name and no string ends in a backslash; one that nothing but closing
    brackets of arrays follows may (`last`).
   */
  predicate Steady(j: Json, last: bool)
    decreases j
  {
    match j
    case String(s) => last || !EndsInBackslash(s)
    case Array(items) => SteadyItems(items, last)
    case Object(ms) => SteadyMembers(ms)
    case _ => true
  }

  predicate SteadyItems(items: seq<Json>, last: bool)
    decreases items
  {
    items != [] ==> Steady(items[0], last && |items| == 1) && SteadyItems(items[1..], last)
  }

  predicate SteadyMembers(ms: seq<Member>)
    decreases ms
  {
    ms != [] ==> !EndsInBackslash(ms[0].key) && Steady(ms[0].val, false) && SteadyMembers(ms[1..])
  }

  // ----- where a string is left again -----

  predicate Letters(s: string) {
    forall i :: 0 <= i < |s| ==> s[i] != QUOTE && s[i] != BACKSLASH
  }

  lemma {:induction false} PassesLetters(p: string, s: string)
    requires Letters(p)
    ensures StringLength(p + s) == |p| + StringLength(s)
  {
    if p == "" {
      assert p + s == s;
    } else {
      assert (p + s)[1..] == p[1..] + s;
      PassesLetters(p[1..], s);
    }
  }

  lemma PassesBackslash(p: string, s: string)
    requires p != "" && Letters(p)
    ensures StringLength([BACKSLASH] + p + s) == 1 + |p| + StringLength(s)
  {
    assert ([BACKSLASH] + p + s)[1..] == p + s;
    PassesLetters(p, s);
  }

  lemma PassesPair(c: char, s: string)
    requires c == QUOTE || (c == BACKSLASH && s != "" && s[0] != QUOTE)
    ensures StringLength([BACKSLASH, c] + s) == 2 + StringLength(s)
  {
    var t := [BACKSLASH, c] + s;
    assert t[2..] == s && t[1..] == [c] + s && ([c] + s)[1..] == s;
  }

  lemma PassesEscape(c: char, s: string)
    requires s != "" && (c == BACKSLASH ==> s[0] != QUOTE)
    ensures StringLength(EscapeChar(c) + s) == |EscapeChar(c)| + StringLength(s)
  {
    hide StringLength;
    if c == QUOTE || c == BACKSLASH {
      PassesPair(c, s);
    } else if ShortEscape(c).Some? {
      assert EscapeChar(c) == [BACKSLASH] + [ShortEscape(c).value];
      PassesBackslash([ShortEscape(c).value], s);
    } else if c as int < 32 {
      var p := ['u', '0', '0', HexDigit(c as int / 16), HexDigit(c as int % 16)];
      assert EscapeChar(c) == [BACKSLASH] + p;
      PassesBackslash(p, s);
    } else {
      PassesLetters([c], s);
    }
  }

  /** A backslash at the end of a string hides its closing quote. */
  lemma PassesQuote(rest: string)
    ensures StringLength([BACKSLASH, BACKSLASH] + ([QUOTE] + rest)) == 3 + StringLength(rest)
  {
    var t, u := [BACKSLASH, BACKSLASH] + ([QUOTE] + rest), [BACKSLASH, QUOTE] + rest;
    assert t[1..] == u && u[2..] == rest;
  }

  lemma FirstOfEscape(s: string, rest: string)
    requires s != ""
    ensures (Escape(s) + rest) != "" && (Escape(s) + rest)[0] != QUOTE
  {
  }

  /** The scan leaves a printed string at its closing quote unless the string ends in a backslash. */
  lemma {:induction false} LeavesString(s: string, rest: string)
    ensures StringLength(Escape(s) + ([QUOTE] + rest)) ==
      |Escape(s)| + 1 + if EndsInBackslash(s) then StringLength(rest) else 0
  {
    hide StringLength;
    var close := [QUOTE] + rest;
    if s == "" {
      assert Escape(s) + close == close;
      LeavesAtOnce(rest);
    } else if s == [BACKSLASH] {
      assert Escape(s) + close == [BACKSLASH, BACKSLASH] + close;
      PassesQuote(rest);
    } else {
      var more := Escape(s[1..]) + close;
      assert Escape(s) + close == EscapeChar(s[0]) + more;
      if s[1..] == "" {
        assert s == [s[0]];
      } else {
        FirstOfEscape(s[1..], close);
      }
      PassesEscape(s[0], more);
      LeavesString(s[1..], rest);
    }
  }

  lemma LeavesAtOnce(rest: string)
    ensures StringLength([QUOTE] + rest) == 1
  {
  }

  /** What a pass makes of a printed string and what follows it. */
  lemma MinifiedQuoted(s: string, rest: string)
    ensures Minified(Quoted(s) + rest) == Quoted(s) + if EndsInBackslash(s) then InString(rest) else Minified(rest)
  {
    hide StringLength;
    hide Escape;
    hide Minified;
    hide InString;
    var all := Quoted(s) + rest;
    var body := Escape(s) + ([QUOTE] + rest);
    var n := StringLength(rest);
    assert all[1..] == body && all[0] == QUOTE;
    LeavesString(s, rest);
    MinifiedString(all);
    InStringSplits(rest);
    if EndsInBackslash(s) {
      assert all[..|Quoted(s)| + n] == Quoted(s) + rest[..n] && all[|Quoted(s)| + n..] == rest[n..];
      Append(Quoted(s), rest[..n], Minified(rest[n..]));
    } else {
      assert all[..|Quoted(s)|] == Quoted(s) && all[|Quoted(s)|..] == rest;
    }
  }

  // ----- white space and punctuation -----

  predicate Spaces(s: string) {
    forall i :: 0 <= i < |s| ==> IsSpace(s[i])
  }

  predicate Kept(s: string) {
    forall i :: 0 <= i < |s| ==> !IsSpace(s[i]) && s[i] != '/' && s[i] != QUOTE
  }

  lemma OneKept(s: string, c: char)
    requires s == [c] && !IsSpace(c) && c != '/' && c != QUOTE && c != BACKSLASH
    ensures Kept(s) && Letters(s)
  {
  }

  lemma {:induction false} DropsSpaces(s: string, rest: string)
    requires Spaces(s)
    ensures Minified(s + rest) == Minified(rest)
  {
    if s == "" {
      assert s + rest == rest;
    } else {
      assert (s + rest)[1..] == s[1..] + rest;
      DropsSpaces(s[1..], rest);
    }
  }

  lemma {:induction false} Keeps(s: string, rest: string)
    requires Kept(s)
    ensures Minified(s + rest) == s + Minified(rest)
  {
    if s == "" {
      assert s + rest == rest && s + Minified(rest) == Minified(rest);
    } else {
      assert (s + rest)[1..] == s[1..] + rest;
      Keeps(s[1..], rest);
      MinifiedStep(s + rest);
      assert s == [s[0]] + s[1..];
      Append([s[0]], s[1..], Minified(rest));
    }
  }

  /** Inside a string everything is copied. */
  lemma StringKeeps(p: string, rest: string)
    requires Letters(p)
    ensures InString(p + rest) == p + InString(rest)
  {
    hide Minified;
    hide StringLength;
    var n := StringLength(rest);
    PassesLetters(p, rest);
    InStringSplits(p + rest);
    InStringSplits(rest);
    assert (p + rest)[..|p| + n] == p + rest[..n] && (p + rest)[|p| + n..] == rest[n..];
    Append(p, rest[..n], Minified(rest[n..]));
  }

  // ----- texts that differ -----

  predicate Diverge(x: string, y: string) {
    exists i :: 0 <= i < |x| && i < |y| && x[i] != y[i]
  }

  lemma DivergeBehind(p: string, x: string, y: string, rest: string)
    requires Diverge(x, y)
    ensures Diverge(p + x, p + (y + rest))
  {
    var i :| 0 <= i < |x| && i < |y| && x[i] != y[i];
    assert (p + x)[|p| + i] == x[i] && (p + (y + rest))[|p| + i] == (y + rest)[i] == y[i];
  }

  lemma DivergeHere(p: string, a: string, x: string, b: string, y: string)
    requires a != "" && b != "" && a[0] != b[0]
    ensures Diverge(p + (a + x), p + (b + y))
  {
    assert (p + (a + x))[|p|] == a[0] && (p + (b + y))[|p|] == b[0];
  }

  // ----- trees -----

  /**
    Minifying from the formatted text on gave `result`: the plain text and then
    the rest, minified or copied, or something that departs from the plain text.
   */
  predicate Effect(steady: bool, open: bool, result: string, plain: string, rest: string) {
    if steady then result == plain + Minified(rest)
    else if open then result == plain + InString(rest)
    else Diverge(result, plain)
  }

  lemma NumberKept(n: int)
    ensures Kept(IntText(n))
  {
    var digits := Decimal(if n < 0 then -n else n);
    assert forall i :: 0 <= i < |digits| ==> IsDigit(digits[i]);
  }

  lemma {:induction false} SteadyLast(j: Json)
    requires Steady(j, false)
    ensures Steady(j, true)
    decreases j
  {
    match j {
      case Array(items) => SteadyItemsLast(items);
      case _ =>
    }
  }

  lemma {:induction false} SteadyItemsLast(items: seq<Json>)
    requires SteadyItems(items, false)
    ensures SteadyItems(items, true)
    decreases items
  {
    if items != [] {
      SteadyLast(items[0]);
      SteadyItemsLast(items[1..]);
    }
  }

  lemma {:induction false} MinifiedText(j: Json, k: nat, rest: string)
    ensures Effect(Steady(j, false), Steady(j, true), Minified(Text(j, true, k) + rest), Text(j, false, k), rest)
    decreases j, 2
  {
    hide Minified;
    hide InString;
    match j {
      case Null => Keeps("null", rest);
      case False => Keeps("false", rest);
      case True => Keeps("true", rest);
      case Number(n) =>
        NumberKept(n);
        Keeps(IntText(n), rest);
      case String(s) => MinifiedQuoted(s, rest);
      case Array(items) => MinifiedArray(items, k, rest);
      case Object(ms) => MinifiedObject(ms, k, rest);
    }
  }

  lemma {:induction false} MinifiedArray(items: seq<Json>, k: nat, rest: string)
    ensures Effect(SteadyItems(items, false), SteadyItems(items, true), Minified(Text(Array(items), true, k) + rest),
                   Text(Array(items), false, k), rest)
    decreases items, 4
  {
    hide Minified;
    hide InString;
    hide ItemsText;
    hide SteadyItems;
    var f, g := ItemsText(items, true, k + 1), ItemsText(items, false, k + 1);
    var close := "]" + rest;
    Append("[" + f, "]", rest);
    Append("[", f, close);
    OneKept("[", '[');
    Keeps("[", f + close);
    MinifiedItems(items, k + 1, close);
    if SteadyItems(items, false) {
      OneKept("]", ']');
      Keeps("]", rest);
      Append("[" + g, "]", Minified(rest));
      Append("[", g, "]" + Minified(rest));
    } else if SteadyItems(items, true) {
      OneKept("]", ']');
      StringKeeps("]", rest);
      Append("[" + g, "]", InString(rest));
      Append("[", g, "]" + InString(rest));
    } else {
      DivergeBehind("[", Minified(f + close), g, "]");
      Append("[", g, "]");
    }
  }

  lemma {:induction false} MinifiedItems(items: seq<Json>, k: nat, rest: string)
    ensures Effect(SteadyItems(items, false), SteadyItems(items, true), Minified(ItemsText(items, true, k) + rest),
                   ItemsText(items, false, k), rest)
    decreases items, 3
  {
    hide Minified;
    hide InString;
    hide Text;
    if items == [] {
      assert ItemsText(items, true, k) + rest == rest && ItemsText(items, false, k) + Minified(rest) == Minified(rest);
    } else if |items| == 1 {
      MinifiedText(items[0], k, rest);
      OneItem(items, k);
    } else {
      MoreItems(items, k, rest);
    }
  }

  lemma OneItem(items: seq<Json>, k: nat)
    requires |items| == 1
    ensures ItemsText(items, true, k) == Text(items[0], true, k) && ItemsText(items, false, k) == Text(items[0], false, k)
    ensures SteadyItems(items, false) == Steady(items[0], false) && SteadyItems(items, true) == Steady(items[0], true)
  {
    assert items[1..] == [];
    assert Text(items[0], true, k) + "" + "" == Text(items[0], true, k);
    assert Text(items[0], false, k) + "" + "" == Text(items[0], false, k);
  }

  lemma {:induction false} MoreItems(items: seq<Json>, k: nat, rest: string)
    requires |items| > 1
    ensures Effect(SteadyItems(items, false), SteadyItems(items, true), Minified(ItemsText(items, true, k) + rest),
                   ItemsText(items, false, k), rest)
    decreases items, 2
  {
    hide Minified;
    hide InString;
    hide Text;
    hide ItemsText;
    var x, y := Text(items[0], true, k), Text(items[0], false, k);
    var f, g := ItemsText(items[1..], true, k), ItemsText(items[1..], false, k);
    var more := ", " + (f + rest);
    ItemsSplit(items, k, rest);
    MinifiedText(items[0], k, more);
    SteadyItemsSplit(items);
    assert "," + " " == ", ";
    if Steady(items[0], false) {
      OneKept(",", ',');
      Keeps(",", " " + (f + rest));
      Append(",", " ", f + rest);
      DropsSpaces(" ", f + rest);
      MinifiedItems(items[1..], k, rest);
      AfterComma(y, Minified(f + rest), g, rest, SteadyItems(items[1..], false), SteadyItems(items[1..], true));
    } else if Steady(items[0], true) {
      assert ", "[0] == ',' && ", "[1] == ' ';
      StringKeeps(", ", f + rest);
      Append(",", " ", InString(f + rest));
      ItemsStart(items[1..], k);
      DivergeHere(y + ",", " ", InString(f + rest), g, "");
      Append(y, ",", " " + InString(f + rest));
      Append(y, ",", g + "");
      assert g + "" == g;
    } else {
      DivergeBehind("", Minified(x + more), y, "," + g);
      assert "" + Minified(x + more) == Minified(x + more) && "" + (y + ("," + g)) == y + ("," + g);
    }
  }

  lemma ItemsStart(items: seq<Json>, k: nat)
    requires items != []
    ensures ItemsText(items, false, k) != "" && ItemsText(items, false, k)[0] != ' '
  {
    R.FirstChar(items[0], false, k);
  }

  lemma ItemsSplit(items: seq<Json>, k: nat, rest: string)
    requires |items| > 1
    ensures ItemsText(items, true, k) + rest == Text(items[0], true, k) + (", " + (ItemsText(items[1..], true, k) + rest))
    ensures ItemsText(items, false, k) == Text(items[0], false, k) + ("," + ItemsText(items[1..], false, k))
  {
    hide Text;
    var x, f := Text(items[0], true, k), ItemsText(items[1..], true, k);
    assert "," + " " == ", ";
    Append(x + ", ", f, rest);
    Append(x, ", ", f + rest);
    assert "," + "" == ",";
    Append(Text(items[0], false, k), ",", ItemsText(items[1..], false, k));
  }

  lemma SteadyItemsSplit(items: seq<Json>)
    requires |items| > 1
    ensures SteadyItems(items, false) == (Steady(items[0], false) && SteadyItems(items[1..], false))
    ensures SteadyItems(items, true) == (Steady(items[0], false) && SteadyItems(items[1..], true))
  {
  }

  lemma AfterComma(y: string, result: string, g: string, rest: string, steady: bool, open: bool)
    requires Effect(steady, open, result, g, rest)
    ensures Effect(steady, open, y + ("," + result), y + ("," + g), rest)
  {
    hide Minified;
    hide InString;
    if steady {
      Append(",", g, Minified(rest));
      Append(y, "," + g, Minified(rest));
    } else if open {
      Append(",", g, InString(rest));
      Append(y, "," + g, InString(rest));
    } else {
      DivergeBehind(y + ",", result, g, "");
      Append(y, ",", result);
      Append(y, ",", g + "");
      assert g + "" == g;
    }
  }

  // ----- objects -----

  lemma LeadIsSpaces(k: nat)
    ensures Spaces(R.Lead(true, k)) && Letters(R.Lead(true, k)) && R.Lead(true, k) != "" && R.Lead(true, k)[0] == '\n'
    ensures R.Lead(false, k) == ""
  {
  }

  lemma {:induction false} MinifiedObject(ms: seq<Member>, k: nat, rest: string)
    ensures Effect(SteadyMembers(ms), false, Minified(Text(Object(ms), true, k) + rest), Text(Object(ms), false, k), rest)
    decreases ms, 4
  {
    hide Minified;
    hide InString;
    hide ObjectText;
    if ms == [] {
      MinifiedEmpty(k, rest);
    } else {
      hide SteadyMembers;
      var f, g, lead := R.FromName(ms, true, k + 1), R.FromName(ms, false, k + 1), R.Lead(true, k + 1);
      R.ObjectFromName(ms, true, k);
      R.ObjectFromName(ms, false, k);
      LeadIsSpaces(k + 1);
      assert "" + g == g;
      Append("{", lead + f, rest);
      Append(lead, f, rest);
      OneKept("{", '{');
      Keeps("{", lead + (f + rest));
      DropsSpaces(lead, f + rest);
      MinifiedMembers(ms, k + 1, rest);
      if SteadyMembers(ms) {
        Append("{", g, Minified(rest));
      } else {
        DivergeBehind("{", Minified(f + rest), g, "");
        assert g + "" == g;
      }
    }
  }

  lemma MinifiedEmpty(k: nat, rest: string)
    ensures Minified(ObjectText([], true, k) + rest) == ObjectText([], false, k) + Minified(rest)
  {
    hide Minified;
    hide ObjectText;
    var lead := R.Lead(true, k);
    R.EmptyObjectText(true, k);
    R.EmptyObjectText(false, k);
    LeadIsSpaces(k);
    assert "{" + ("" + "}") == "{}" && "{}" + Minified(rest) == "{" + ("}" + Minified(rest));
    Append("{", lead + "}", rest);
    Append(lead, "}", rest);
    OneKept("{", '{');
    Keeps("{", lead + ("}" + rest));
    DropsSpaces(lead, "}" + rest);
    OneKept("}", '}');
    Keeps("}", rest);
  }

  lemma NameSplit(ms: seq<Member>, k: nat, rest: string)
    requires ms != [] && k > 0
    ensures R.FromName(ms, true, k) + rest ==
      Quoted(ms[0].key) + (":" + ("\t" + (Text(ms[0].val, true, k) + (R.AfterMember(ms, true, k) + rest))))
    ensures R.FromName(ms, false, k) == Quoted(ms[0].key) + (":" + (Text(ms[0].val, false, k) + R.AfterMember(ms, false, k)))
  {
    hide Text;
    hide Quoted;
    R.NameThenAfter(ms, true, k);
    R.NameThenAfter(ms, false, k);
    hide R.FromName;
    hide R.AfterMember;
    var x, a := Text(ms[0].val, true, k), R.AfterMember(ms, true, k);
    var y, b := Text(ms[0].val, false, k), R.AfterMember(ms, false, k);
    Append(Quoted(ms[0].key), ":" + ("\t" + (x + a)), rest);
    Append(":", "\t" + (x + a), rest);
    Append("\t", x + a, rest);
    Append(x, a, rest);
    assert "" + (y + b) == y + b;
  }

  lemma {:induction false} MinifiedMembers(ms: seq<Member>, k: nat, rest: string)
    requires ms != [] && k > 0
    ensures Effect(SteadyMembers(ms), false, Minified(R.FromName(ms, true, k) + rest), R.FromName(ms, false, k), rest)
    decreases ms, 3
  {
    hide Minified;
    hide InString;
    hide Text;
    hide Quoted;
    hide R.FromName;
    hide R.AfterMember;
    var key := Quoted(ms[0].key);
    var x, a := Text(ms[0].val, true, k), R.AfterMember(ms, true, k) + rest;
    var y, b := Text(ms[0].val, false, k), R.AfterMember(ms, false, k);
    NameSplit(ms, k, rest);
    MinifiedQuoted(ms[0].key, ":" + ("\t" + (x + a)));
    if EndsInBackslash(ms[0].key) {
      BadName(key, x + a, ms[0].val, k, b);
    } else {
      OneKept(":", ':');
      Keeps(":", "\t" + (x + a));
      DropsSpaces("\t", x + a);
      MinifiedMember(ms, k, rest);
      AfterName(key, Minified(x + a), y + b, rest, SteadyMembers(ms));
    }
  }

  lemma BadName(key: string, more: string, val: Json, k: nat, b: string)
    ensures Diverge(key + InString(":" + ("\t" + more)), key + (":" + (Text(val, false, k) + b)))
  {
    hide InString;
    hide Text;
    OneKept(":", ':');
    StringKeeps(":", "\t" + more);
    StringKeeps("\t", more);
    R.FirstChar(val, false, k);
    DivergeHere(key + ":", "\t", InString(more), Text(val, false, k), b);
    Append(key, ":", "\t" + InString(more));
    Append(key, ":", Text(val, false, k) + b);
  }

  lemma AfterName(key: string, result: string, plain: string, rest: string, steady: bool)
    requires Effect(steady, false, result, plain, rest)
    ensures Effect(steady, false, key + (":" + result), key + (":" + plain), rest)
  {
    hide Minified;
    hide InString;
    if steady {
      Append(":", plain, Minified(rest));
      Append(key, ":" + plain, Minified(rest));
    } else {
      DivergeBehind(key + ":", result, plain, "");
      assert plain + "" == plain;
      Append(key, ":", result);
      Append(key, ":", plain);
    }
  }

  /** The value of a member and what comes after it. */
  lemma {:induction false} MinifiedMember(ms: seq<Member>, k: nat, rest: string)
    requires ms != [] && k > 0 && !EndsInBackslash(ms[0].key)
    ensures Effect(SteadyMembers(ms), false,
                   Minified(Text(ms[0].val, true, k) + (R.AfterMember(ms, true, k) + rest)),
                   Text(ms[0].val, false, k) + R.AfterMember(ms, false, k), rest)
    decreases ms, 2
  {
    hide Minified;
    hide InString;
    hide Text;
    hide R.FromName;
    hide R.AfterMember;
    hide Steady;
    var x, a := Text(ms[0].val, true, k), R.AfterMember(ms, true, k) + rest;
    var y, b := Text(ms[0].val, false, k), R.AfterMember(ms, false, k);
    MinifiedText(ms[0].val, k, a);
    if Steady(ms[0].val, false) {
      MinifiedAfter(ms, k, rest);
      if SteadyMembers(ms[1..]) {
        Append(y, b, Minified(rest));
      } else {
        DivergeBehind(y, Minified(a), b, "");
        assert b + "" == b;
      }
    } else if Steady(ms[0].val, true) {
      AfterDiverges(ms, k, rest);
      DivergeBehind(y, InString(a), b, "");
      assert b + "" == b;
    } else {
      DivergeBehind("", Minified(x + a), y, b);
      assert "" + Minified(x + a) == Minified(x + a) && "" + (y + b) == y + b;
    }
  }

  lemma AfterSplit(ms: seq<Member>, k: nat)
    requires ms != [] && k > 0
    ensures |ms| == 1 ==> R.AfterMember(ms, true, k) == R.Lead(true, k - 1) + "}" && R.AfterMember(ms, false, k) == "}"
    ensures |ms| > 1 ==> R.AfterMember(ms, true, k) == "," + (R.Lead(true, k) + R.FromName(ms[1..], true, k))
    ensures |ms| > 1 ==> R.AfterMember(ms, false, k) == "," + R.FromName(ms[1..], false, k)
  {
    hide R.FromName;
    assert "" + "}" == "}";
    if |ms| > 1 {
      var g := R.FromName(ms[1..], false, k);
      assert "" + g == g;
    }
  }

  lemma {:induction false} MinifiedAfter(ms: seq<Member>, k: nat, rest: string)
    requires ms != [] && k > 0
    ensures Effect(SteadyMembers(ms[1..]), false, Minified(R.AfterMember(ms, true, k) + rest), R.AfterMember(ms, false, k), rest)
    decreases ms, 1
  {
    hide Minified;
    hide InString;
    hide R.FromName;
    hide R.AfterMember;
    AfterSplit(ms, k);
    if |ms| > 1 {
      var f, g, lead := R.FromName(ms[1..], true, k), R.FromName(ms[1..], false, k), R.Lead(true, k);
      LeadIsSpaces(k);
      Append(",", lead + f, rest);
      Append(lead, f, rest);
      OneKept(",", ',');
      Keeps(",", lead + (f + rest));
      DropsSpaces(lead, f + rest);
      MinifiedMembers(ms[1..], k, rest);
      if SteadyMembers(ms[1..]) {
        Append(",", g, Minified(rest));
      } else {
        DivergeBehind(",", Minified(f + rest), g, "");
        assert g + "" == g;
      }
    } else {
      var lead := R.Lead(true, k - 1);
      LeadIsSpaces(k - 1);
      Append(lead, "}", rest);
      DropsSpaces(lead, "}" + rest);
      OneKept("}", '}');
      Keeps("}", rest);
    }
  }

  lemma AfterDiverges(ms: seq<Member>, k: nat, rest: string)
    requires ms != [] && k > 0
    ensures Diverge(InString(R.AfterMember(ms, true, k) + rest), R.AfterMember(ms, false, k))
  {
    hide InString;
    hide R.FromName;
    hide R.AfterMember;
    hide R.Lead;
    AfterSplit(ms, k);
    if |ms| > 1 {
      var f, g, lead := R.FromName(ms[1..], true, k), R.FromName(ms[1..], false, k), R.Lead(true, k);
      LeadIsSpaces(k);
      R.NameThenAfter(ms[1..], false, k);
      Append(",", lead + f, rest);
      Append(lead, f, rest);
      OneKept(",", ',');
      StringKeeps(",", lead + (f + rest));
      StringKeeps(lead, f + rest);
      DivergeHere(",", lead, InString(f + rest), g, "");
      assert g + "" == g;
    } else {
      var lead := R.Lead(true, k - 1);
      LeadIsSpaces(k - 1);
      Append(lead, "}", rest);
      StringKeeps(lead, "}" + rest);
      DivergeHere("", lead, InString("}" + rest), "}", "");
      assert "" + ("}" + "") == "}" && "" + (lead + InString("}" + rest)) == lead + InString("}" + rest);
    }
  }

  /**
    cJSON_Minify turns the formatted text of a tree into its unformatted text
    exactly when no name and no string ends in a backslash, strings that only
    closing brackets follow excepted.
   */
  lemma MinifyFormatted(j: Json)
    ensures Minified(Text(j, true, 0)) == Text(j, false, 0) <==> Steady(j, true)
  {
    hide Text;
    hide Minified;
    hide Steady;
    var x, y := Text(j, true, 0), Text(j, false, 0);
    MinifiedText(j, 0, "");
    MinifiedNothing();
    InStringNothing();
    assert x + "" == x && y + "" == y;
    if Steady(j, false) { SteadyLast(j); }
  }

  // ----- a text that is not minified -----

  /** An object with one name, which is a single backslash. */
  const BACKSLASH_NAME := Object([Member([BACKSLASH], True)])

  const WRITTEN_NAME := [QUOTE, BACKSLASH, BACKSLASH, QUOTE]

  lemma BackslashText(format: bool)
    ensures Text(BACKSLASH_NAME, format, 0) ==
      (if format then "{\n\t" else "{") + WRITTEN_NAME + (if format then ":\ttrue\n}" else ":true}")
  {
    var front, back := When(format, "\t"), When(format, "\n");
    var m := (front + WRITTEN_NAME + (":" + front)) + "true" + ("" + back);
    BackslashMembers(format);
    TabsBefore(format);
    hide MembersText;
    assert Text(BACKSLASH_NAME, format, 0) == ("{" + back) + (m + "") + ("" + "}");
    hide Text;
    Regroup("{" + back, front, WRITTEN_NAME, ":" + front, "true", back, "}");
    Ends(format);
  }

  lemma Ends(format: bool)
    ensures ("{" + When(format, "\n")) + When(format, "\t") == if format then "{\n\t" else "{"
    ensures (":" + When(format, "\t")) + "true" + When(format, "\n") + "}" == if format then ":\ttrue\n}" else ":true}"
  {
  }

  lemma BackslashMembers(format: bool)
    ensures MembersText(BACKSLASH_NAME.members, format, 1) ==
      ((When(format, "\t") + WRITTEN_NAME + (":" + When(format, "\t"))) + "true" + ("" + When(format, "\n"))) + ""
  {
    var ms := BACKSLASH_NAME.members;
    BackslashQuoted();
    TabsBefore(format);
    hide Quoted;
    assert ms[1..] == [] && MembersText([], format, 1) == "";
    assert MembersText(ms, format, 1) == MemberText(ms[0], format, 1, false) + "";
  }

  lemma BackslashQuoted()
    ensures Quoted([BACKSLASH]) == WRITTEN_NAME
  {
    assert [BACKSLASH][1..] == [];
    assert Escape([BACKSLASH]) == [BACKSLASH, BACKSLASH];
  }

  lemma TabsBefore(format: bool)
    ensures When(format, Tabs(1)) == When(format, "\t") && When(format, Tabs(0)) == ""
  {
    assert Tabs(1) == "\t" && Tabs(0) == "";
  }

  lemma Regroup(a: string, b: string, c: string, d: string, e: string, f: string, g: string)
    ensures a + ((b + c + d) + e + ("" + f) + "") + ("" + g) == (a + b) + c + (d + e + f + g)
  {
  }

  /** The scan takes the closing quote of the name for an escaped one, and copies all the rest. */
  lemma BackslashNotMinified()
    ensures Minified(Text(BACKSLASH_NAME, true, 0)) == "{" + WRITTEN_NAME + ":\ttrue\n}"
    ensures Minified(Text(BACKSLASH_NAME, true, 0)) != Text(BACKSLASH_NAME, false, 0)
  {
    hide Text;
    hide Minified;
    BackslashText(true);
    BackslashText(false);
    CopiesTheRest("{\n\t", ":\ttrue\n}");
    assert |":\ttrue\n}"| == |":true}"| + 2;
  }

  lemma CopiesTheRest(front: string, tail: string)
    requires front == "{\n\t" && Letters(tail)
    ensures Minified(front + WRITTEN_NAME + tail) == "{" + WRITTEN_NAME + tail
  {
    hide Minified;
    hide InString;
    hide StringLength;
    var body := [BACKSLASH, BACKSLASH, QUOTE] + tail;
    FirstBytes(body);
    StringOfBackslash(tail);
    WholeString(body);
    assert front + WRITTEN_NAME + tail == "{\n\t" + ([QUOTE] + body);
    assert "{" + ([QUOTE] + body) == "{" + WRITTEN_NAME + tail;
  }

  lemma FirstBytes(body: string)
    ensures Minified("{\n\t" + ([QUOTE] + body)) == "{" + ([QUOTE] + InString(body))
  {
    hide Minified;
    hide InString;
    var s := "{\n\t" + ([QUOTE] + body);
    assert s[1..] == "\n\t" + ([QUOTE] + body) && s[1..][1..] == "\t" + ([QUOTE] + body) && s[1..][1..][1..] == [QUOTE] + body;
    OneByte(s);
    OneByte(s[1..]);
    OneByte(s[1..][1..]);
    OneByte([QUOTE] + body);
    assert ([QUOTE] + body)[1..] == body;
  }

  lemma OneByte(s: string)
    requires s != ""
    ensures IsSpace(s[0]) ==> Minified(s) == Minified(s[1..])
    ensures s[0] == QUOTE ==> Minified(s) == [QUOTE] + InString(s[1..])
    ensures !IsSpace(s[0]) && s[0] != '/' && s[0] != QUOTE ==> Minified(s) == [s[0]] + Minified(s[1..])
  {
  }

  lemma StringOfBackslash(tail: string)
    requires Letters(tail)
    ensures var s := [BACKSLASH, BACKSLASH, QUOTE] + tail; StringLength(s) == |s|
  {
    var s := [BACKSLASH, BACKSLASH, QUOTE] + tail;
    assert s[1..] == [BACKSLASH, QUOTE] + tail && s[1..][2..] == tail;
    PassesLetters(tail, "");
    assert tail + "" == tail;
  }

  lemma WholeString(s: string)
    requires StringLength(s) == |s|
    ensures InString(s) == s
  {
    assert s[|s|..] == "" && s[..|s|] == s;
  }

  lemma InStringNothing()
    ensures InString("") == ""
  {
  }

  // ----- a second pass -----

  /** A string that was closed is as long whatever follows it. */
  lemma {:induction false} ClosedString(t: string, u: string)
    requires StringLength(t) < |t|
    ensures StringLength(t[..StringLength(t)] + u) == StringLength(t)
    decreases |t|
  {
    var n := StringLength(t);
    var all := t[..n] + u;
    if t[0] == QUOTE {
    } else if t[0] == BACKSLASH && |t| > 1 && t[1] == QUOTE {
      ClosedString(t[2..], u);
      assert all[2..] == t[2..][..n - 2] + u;
    } else {
      ClosedString(t[1..], u);
      assert all[1..] == t[1..][..n - 1] + u;
    }
  }

  /** Minifying what was minified changes nothing, whatever the text. */
  lemma {:induction false} MinifyIdempotent(s: string)
    ensures Minified(Minified(s)) == Minified(s)
    decreases |s|
  {
    hide Minified;
    hide StringLength;
    hide LineLength;
    hide BlockLength;
    if s == "" {
      MinifiedNothing();
    } else {
      MinifiedStep(s);
      if s[0] == QUOTE {
        MinifiedTwice(s);
      } else if s[0] == '/' && |s| > 1 && s[1] == '/' {
        MinifyIdempotent(s[2..][LineLength(s[2..])..]);
      } else if s[0] == '/' && |s| > 1 && s[1] == '*' {
        MinifyIdempotent(s[2..][BlockLength(s[2..])..]);
      } else {
        MinifyIdempotent(s[1..]);
        if !IsSpace(s[0]) && s[0] != '/' { Keeps([s[0]], Minified(s[1..])); }
      }
    }
  }

  lemma {:induction false} MinifiedTwice(s: string)
    requires s != "" && s[0] == QUOTE
    ensures Minified(Minified(s)) == Minified(s)
    decreases |s|, 0
  {
    hide Minified;
    hide StringLength;
    var n := 1 + StringLength(s[1..]);
    MinifiedString(s);
    if n == |s| {
      MinifiedNothing();
      assert s[..n] == s && s[n..] == "" && s + "" == s;
    } else {
      var more := Minified(s[n..]);
      var all := s[..n] + more;
      ClosedString(s[1..], more);
      assert all[1..] == s[1..][..n - 1] + more && all[..n] == s[..n] && all[n..] == more;
      MinifiedString(all);
      MinifyIdempotent(s[n..]);
    }
  }
}
