/**
  C strings as the sources use them: byte strings without the terminating NUL,
  strcmp's order on them, and the case folding of tolower.
 */
module CStrings {
  const NUL: char := '\0'

  /** A byte string that C can hold: no byte is the terminator. */
  predicate IsCString(s: string) {
    forall i :: 0 <= i < |s| ==> 0 < s[i] as int < 256
  }

  /** What C sees of a buffer: everything before the first NUL. */
  function Truncate(s: string): (r: string)
    ensures r <= s && NUL !in r
    ensures r == s || s[|r|] == NUL
  {
    if s == [] || s[0] == NUL then [] else [s[0]] + Truncate(s[1..])
  }

  lemma {:induction false} TruncateCString(s: string, rest: string)
    requires NUL !in s
    ensures Truncate(s + [NUL] + rest) == s
    ensures Truncate(s) == s
  {
    if s != [] {
      TruncateCString(s[1..], rest);
      assert (s + [NUL] + rest)[1..] == s[1..] + [NUL] + rest;
    }
  }

  // ----- strcmp -----

  /** strcmp(a, b) < 0: bytes compared in turn, the end of a string counting as 0. */
  predicate Less(a: string, b: string) {
    b != [] && (a == [] || a[0] < b[0] || (a[0] == b[0] && Less(a[1..], b[1..])))
  }

  /** The sign of strcmp(a, b); the callers use nothing else of it. */
  function StrCmp(a: string, b: string): (r: int) {
    if a == b then 0 else if Less(a, b) then -1 else 1
  }

  lemma {:induction false} LessIrreflexive(a: string)
    ensures !Less(a, a)
  {
    if a != [] { LessIrreflexive(a[1..]); }
  }

  lemma {:induction false} LessTransitive(a: string, b: string, c: string)
    requires Less(a, b) && Less(b, c)
    ensures Less(a, c)
  {
    if a != [] && a[0] == b[0] == c[0] {
      LessTransitive(a[1..], b[1..], c[1..]);
    }
  }

  lemma {:induction false} LessTotal(a: string, b: string)
    ensures Less(a, b) || a == b || Less(b, a)
  {
    if a != [] && b != [] && a[0] == b[0] {
      LessTotal(a[1..], b[1..]);
      assert a == [a[0]] + a[1..] && b == [b[0]] + b[1..];
    }
  }

  lemma LessAsymmetric(a: string, b: string)
    requires Less(a, b)
    ensures !Less(b, a) && a != b
  {
    if Less(b, a) { LessTransitive(a, b, a); }
    LessIrreflexive(a);
  }

  // ----- case folding -----

  function ToLower(c: char): char {
    if 'A' <= c <= 'Z' then (c as int + 32) as char else c
  }

  function Fold(s: string): (r: string)
    ensures |r| == |s|
    ensures forall i :: 0 <= i < |s| ==> r[i] == ToLower(s[i])
  {
    seq(|s|, i requires 0 <= i < |s| => ToLower(s[i]))
  }

  /** What a comparison looks at: the key itself, or its folding when case is ignored. */
  function View(key: string, caseSensitive: bool): string {
    if caseSensitive then key else Fold(key)
  }

  /** compare_strings and case_insensitive_strcmp on non-NULL strings. */
  function CompareStrings(a: string, b: string, caseSensitive: bool): int {
    StrCmp(View(a, caseSensitive), View(b, caseSensitive))
  }
}
