/** The JavaScript string and array built-ins the core relies on:
    `startsWith`, `includes`, `join`, a global `replace` with a literal
    pattern, `slice(0, end)` and the decimal rendering of integers. */
module Strings {

  /** `s.startsWith(p)`. */
  predicate StartsWith(s: string, p: string)
  {
    |p| <= |s| && s[..|p|] == p
  }

  /** A text does not start with `p` when they differ at some position. */
  lemma DiffersAt(s: string, p: string, i: nat)
    requires i < |s| && i < |p| && s[i] != p[i]
    ensures !StartsWith(s, p)
  {
    if |p| <= |s| {
      assert s[..|p|][i] != p[i];
    }
  }

  /** `parts.join(sep)`: the parts with `sep` between consecutive ones. */
  function Join(parts: seq<string>, sep: string): string
  {
    if |parts| == 0 then ""
    else if |parts| == 1 then parts[0]
    else parts[0] + sep + Join(parts[1..], sep)
  }

  /** A one-character separator occurs in the joined text exactly when it
      separates two parts or already occurs in one of them. */
  lemma {:induction false} JoinContainsSeparator(parts: seq<string>, c: char)
    ensures c in Join(parts, [c]) <==> |parts| >= 2 || exists i :: 0 <= i < |parts| && c in parts[i]
  {
    if |parts| >= 2 {
      var rest := Join(parts[1..], [c]);
      assert Join(parts, [c]) == parts[0] + [c] + rest;
      assert (parts[0] + [c] + rest)[|parts[0]|] == c;
    } else if |parts| == 1 {
      assert Join(parts, [c]) == parts[0];
    }
  }

  /** `s.replace(/pat/g, rep)` for a pattern without metacharacters: every
      occurrence of `pat`, scanning left to right without overlap, becomes
      `rep`; the inserted text is not scanned again. */
  function ReplaceAll(s: string, pat: string, rep: string): string
    requires |pat| > 0
    decreases |s|
  {
    if |s| == 0 then ""
    else if StartsWith(s, pat) then rep + ReplaceAll(s[|pat|..], pat, rep)
    else [s[0]] + ReplaceAll(s[1..], pat, rep)
  }

  /** A text in which the pattern does not occur is left unchanged. */
  lemma {:induction false} ReplaceAllAbsent(s: string, pat: string, rep: string)
    requires |pat| > 0
    requires forall i :: 0 <= i < |s| ==> !StartsWith(s[i..], pat)
    ensures ReplaceAll(s, pat, rep) == s
  {
    if |s| > 0 {
      assert s[0..] == s;
      forall i | 0 <= i < |s[1..]|
        ensures !StartsWith(s[1..][i..], pat)
      {
        assert s[1..][i..] == s[i + 1..];
      }
      ReplaceAllAbsent(s[1..], pat, rep);
    }
  }

  /** Text before the first occurrence is copied as it is. */
  lemma {:induction false} ReplaceAllSkips(a: string, t: string, pat: string, rep: string)
    requires |pat| > 0
    requires forall i :: 0 <= i < |a| ==> !StartsWith((a + t)[i..], pat)
    ensures ReplaceAll(a + t, pat, rep) == a + ReplaceAll(t, pat, rep)
    decreases |a|
  {
    if |a| > 0 {
      var s := a + t;
      assert s[0..] == s;
      assert s[1..] == a[1..] + t;
      forall i | 0 <= i < |a[1..]|
        ensures !StartsWith((a[1..] + t)[i..], pat)
      {
        assert (a[1..] + t)[i..] == s[i + 1..];
      }
      ReplaceAllSkips(a[1..], t, pat, rep);
      assert a == [a[0]] + a[1..];
    } else {
      assert a + t == t;
    }
  }

  /** The first occurrence of the pattern becomes the replacement, and the
      scan resumes right after it. */
  lemma ReplaceAllFirstOccurrence(a: string, b: string, pat: string, rep: string)
    requires |pat| > 0
    requires forall i :: 0 <= i < |a| ==> !StartsWith((a + pat)[i..], pat)
    ensures ReplaceAll(a + pat + b, pat, rep) == a + rep + ReplaceAll(b, pat, rep)
  {
    forall i | 0 <= i < |a|
      ensures !StartsWith((a + pat + b)[i..], pat)
    {
      assert (a + pat + b)[i..][..|pat|] == (a + pat)[i..][..|pat|];
    }
    assert a + pat + b == a + (pat + b);
    ReplaceAllSkips(a, pat + b, pat, rep);
    assert (pat + b)[..|pat|] == pat;
    assert (pat + b)[|pat|..] == b;
  }

  /** `s.slice(0, end)`: a negative `end` counts from the end of `s`. */
  function SliceTo<T>(s: seq<T>, end: int): (r: seq<T>)
    ensures end >= 0 ==> r == s[..if end < |s| then end else |s|]
    ensures end < 0 ==> r == s[..if |s| + end > 0 then |s| + end else 0]
  {
    var k := if end < 0 then |s| + end else end;
    var m := if k < 0 then 0 else if k > |s| then |s| else k;
    s[..m]
  }

  predicate IsDigit(c: char)
  {
    '0' <= c <= '9'
  }

  /** The decimal digits of a natural number, as `String(n)` writes them. */
  function NatText(n: nat): (r: string)
    ensures |r| > 0 && forall i :: 0 <= i < |r| ==> IsDigit(r[i])
  {
    var d := [(48 + n % 10) as char];
    if n < 10 then d else NatText(n / 10) + d
  }

  /** The number a string of decimal digits denotes, most significant
      digit first; the empty string denotes 0. */
  function DecimalValue(s: string): int
    requires forall i :: 0 <= i < |s| ==> IsDigit(s[i])
  {
    if |s| == 0 then 0 else 10 * DecimalValue(s[..|s| - 1]) + (s[|s| - 1] as int - 48)
  }

  /** The digits `NatText` writes denote the number itself. */
  lemma {:induction false} NatTextValue(n: nat)
    ensures DecimalValue(NatText(n)) == n
  {
    if n >= 10 {
      var r := NatText(n);
      assert r[..|r| - 1] == NatText(n / 10);
      NatTextValue(n / 10);
    }
  }

  /** `String(i)` for an integer. */
  function IntText(i: int): string
  {
    if i < 0 then "-" + NatText(-i) else NatText(i)
  }
}
