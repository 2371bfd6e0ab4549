/**
 * The .NET string operations the server relies on: Trim with a character
 * set, IndexOf and LastIndexOf, Split on a character, Join, Replace,
 * StartsWith, char.IsWhiteSpace, and the decimal printing and long.TryParse
 * used for Content-Length. A C# string is a seq<char>, one Dafny char per C#
 * char.
 *
 * Every search and comparison here is ordinal. That is the framework's own
 * semantics for IndexOf(char), Split and Replace; the string overloads of
 * IndexOf, LastIndexOf and StartsWith compare with the current culture
 * instead, which this module does not model.
 */
module Strings {

  datatype Option<T> = None | Some(value: T)

  /** The characters for which .NET's char.IsWhiteSpace returns true. */
  const WhiteSpace: set<char> := {
    '\t', '\n', '\U{000B}', '\U{000C}', '\r', ' ', '\U{0085}', '\U{00A0}', '\U{1680}',
    '\U{2000}', '\U{2001}', '\U{2002}', '\U{2003}', '\U{2004}', '\U{2005}', '\U{2006}',
    '\U{2007}', '\U{2008}', '\U{2009}', '\U{200A}', '\U{2028}', '\U{2029}', '\U{202F}',
    '\U{205F}', '\U{3000}'
  }

  /** char.IsWhiteSpace, by code point: the same characters as WhiteSpace (WhiteSpaceIsSet). */
  predicate IsWhiteSpace(c: char) {
    || c == ' ' || '\t' <= c <= '\r' || c == '\U{0085}' || c == '\U{00A0}' || c == '\U{1680}'
    || '\U{2000}' <= c <= '\U{200A}' || c == '\U{2028}' || c == '\U{2029}' || c == '\U{202F}'
    || c == '\U{205F}' || c == '\U{3000}'
  }

  lemma WhiteSpaceIsSet(c: char)
    ensures IsWhiteSpace(c) <==> c in WhiteSpace
  {
  }

  /** string.IsNullOrWhiteSpace; None stands for null. */
  predicate IsNullOrWhiteSpace(s: Option<string>) {
    s.None? || forall k :: 0 <= k < |s.value| ==> IsWhiteSpace(s.value[k])
  }

  // ---------------------------------------------------------------- trimming

  /** s.TrimStart(cs): drops the longest prefix made of characters of cs. */
  function TrimStart(s: string, cs: set<char>): (r: string)
    ensures |r| <= |s|
    ensures forall k :: 0 <= k < |s| - |r| ==> s[k] in cs
    ensures r != [] ==> r[0] !in cs
  {
    if s != [] && s[0] in cs then TrimStart(s[1..], cs) else s
  }

  /** What TrimStart keeps is a suffix of s. */
  lemma {:induction false} TrimStartSuffix(s: string, cs: set<char>)
    ensures TrimStart(s, cs) == s[|s| - |TrimStart(s, cs)|..]
  {
    if s != [] && s[0] in cs {
      TrimStartSuffix(s[1..], cs);
      assert s[1..][|s| - 1 - |TrimStart(s, cs)|..] == s[|s| - |TrimStart(s, cs)|..];
    }
  }

  /** s.TrimEnd(cs): drops the longest suffix made of characters of cs. */
  function TrimEnd(s: string, cs: set<char>): (r: string)
    ensures |r| <= |s| && r == s[..|r|]
    ensures forall k :: |r| <= k < |s| ==> s[k] in cs
    ensures r != [] ==> r[|r| - 1] !in cs
  {
    if s != [] && s[|s| - 1] in cs then TrimEnd(s[..|s| - 1], cs) else s
  }

  /**
   * s.Trim(cs): the interior of s left after removing every leading and
   * trailing character of cs; the interior itself is untouched.
   */
  function Trim(s: string, cs: set<char>): (r: string)
    ensures r == [] || (r[0] !in cs && r[|r| - 1] !in cs)
  {
    TrimEnd(TrimStart(s, cs), cs)
  }

  /** The interior Trim keeps is a slice of s, and what lies outside it is made of cs. */
  lemma TrimBounds(s: string, cs: set<char>)
    ensures var t := TrimStart(s, cs); var r := Trim(s, cs); var a := |s| - |t|;
      a + |r| <= |s| && r == s[a..a + |r|]
      && (forall k :: 0 <= k < a ==> s[k] in cs)
      && (forall k :: a + |r| <= k < |s| ==> s[k] in cs)
  {
    var t := TrimStart(s, cs);
    var r := TrimEnd(t, cs);
    var a := |s| - |t|;
    TrimStartSuffix(s, cs);
    assert t == s[a..];
    assert r == s[a..a + |r|];
    forall k | a + |r| <= k < |s|
      ensures s[k] in cs
    {
      assert s[k] == t[k - a];
    }
  }

  /** A string that neither starts nor ends with a character of cs is its own Trim. */
  lemma TrimUnpadded(s: string, cs: set<char>)
    requires s == [] || (s[0] !in cs && s[|s| - 1] !in cs)
    ensures Trim(s, cs) == s
  {
    assert TrimStart(s, cs) == s;
    assert TrimEnd(s, cs) == s;
  }

  /** string.Trim() without arguments trims char.IsWhiteSpace characters. */
  function TrimWhiteSpace(s: string): string {
    Trim(s, WhiteSpace)
  }

  lemma TrimIdempotent(s: string, cs: set<char>)
    ensures Trim(Trim(s, cs), cs) == Trim(s, cs)
  {
  }

  lemma {:induction false} TrimStartPadding(p: string, s: string, cs: set<char>)
    requires forall k :: 0 <= k < |p| ==> p[k] in cs
    ensures TrimStart(p + s, cs) == TrimStart(s, cs)
  {
    if p == [] {
      assert p + s == s;
    } else {
      assert (p + s)[1..] == p[1..] + s;
      TrimStartPadding(p[1..], s, cs);
    }
  }

  lemma {:induction false} TrimEndPadding(s: string, q: string, cs: set<char>)
    requires forall k :: 0 <= k < |q| ==> q[k] in cs
    ensures TrimEnd(s + q, cs) == TrimEnd(s, cs)
  {
    if q == [] {
      assert s + q == s;
    } else {
      assert (s + q)[..|s + q| - 1] == s + q[..|q| - 1];
      TrimEndPadding(s, q[..|q| - 1], cs);
    }
  }

  lemma {:induction false} TrimStartAppend(v: string, q: string, cs: set<char>)
    requires TrimStart(v, cs) != []
    ensures TrimStart(v + q, cs) == TrimStart(v, cs) + q
  {
    assert (v + q)[0] == v[0];
    if v[0] in cs {
      assert (v + q)[1..] == v[1..] + q;
      TrimStartAppend(v[1..], q, cs);
      assert TrimStart(v + q, cs) == TrimStart(v[1..] + q, cs);
    } else {
      assert TrimStart(v, cs) == v;
    }
  }

  /**
   * Padding either side of s with characters of cs does not change Trim:
   * Trim(p + s + q) == Trim(s).
   */
  lemma TrimPadding(p: string, s: string, q: string, cs: set<char>)
    requires forall k :: 0 <= k < |p| ==> p[k] in cs
    requires forall k :: 0 <= k < |q| ==> q[k] in cs
    ensures Trim(p + s + q, cs) == Trim(s, cs)
  {
    assert p + s + q == p + (s + q);
    TrimStartPadding(p, s + q, cs);
    if TrimStart(s, cs) == [] {
      TrimStartPadding(s, q, cs);
      var t := TrimStart(q, cs);
      TrimStartSuffix(q, cs);
      assert TrimEnd(t, cs) == [] by {
        TrimEndPadding([], t, cs);
      }
    } else {
      TrimStartAppend(s, q, cs);
      TrimEndPadding(TrimStart(s, cs), q, cs);
    }
  }

  // ---------------------------------------------------------------- searching

  /** s.IndexOf(c): the first index of c, or -1. */
  function IndexOf(s: string, c: char): (r: int)
    ensures r == -1 <==> c !in s
    ensures r != -1 ==> 0 <= r < |s| && s[r] == c && c !in s[..r]
  {
    if s == [] then -1
    else if s[0] == c then 0
    else
      var k := IndexOf(s[1..], c);
      if k == -1 then -1
      else
        assert s[..k + 1] == [s[0]] + s[1..][..k];
        k + 1
  }

  predicate OccursAt(s: string, sub: string, k: int) {
    0 <= k && k + |sub| <= |s| && s[k..k + |sub|] == sub
  }

  /** s.IndexOf(sub, start), compared ordinally: the first occurrence of sub at or after start, or -1. */
  function IndexOfFrom(s: string, sub: string, start: nat): (r: int)
    requires start <= |s|
    ensures r == -1 || (start <= r && OccursAt(s, sub, r))
    ensures forall k :: start <= k && (r == -1 || k < r) ==> !OccursAt(s, sub, k)
    decreases |s| - start
  {
    if start + |sub| > |s| then -1
    else if s[start..start + |sub|] == sub then start
    else IndexOfFrom(s, sub, start + 1)
  }

  /** The last occurrence of sub starting at or before k, or -1. */
  function LastIndexAtOrBefore(s: string, sub: string, k: int): (r: int)
    ensures r == -1 || (r <= k && OccursAt(s, sub, r))
    ensures forall j :: r < j <= k ==> !OccursAt(s, sub, j)
    decreases k + 1
  {
    if k < 0 then -1
    else if OccursAt(s, sub, k) then k
    else LastIndexAtOrBefore(s, sub, k - 1)
  }

  /** s.LastIndexOf(sub), compared ordinally: the start of the last occurrence of sub, or -1. */
  function LastIndexOf(s: string, sub: string): (r: int)
    ensures r == -1 || OccursAt(s, sub, r)
    ensures forall j :: r < j ==> !OccursAt(s, sub, j)
  {
    LastIndexAtOrBefore(s, sub, |s|)
  }

  predicate StartsWith(s: string, prefix: string) {
    |prefix| <= |s| && s[..|prefix|] == prefix
  }

  // ---------------------------------------------------------------- split, join, replace

  /** s.Split(sep): the pieces between separators, empty pieces included. */
  function Split(s: string, sep: char): (parts: seq<string>)
    ensures |parts| >= 1
    ensures forall i :: 0 <= i < |parts| ==> sep !in parts[i]
    decreases |s|
  {
    var k := IndexOf(s, sep);
    if k == -1 then [s] else [s[..k]] + Split(s[k + 1..], sep)
  }

  /** Splitting at a separator between two texts splits each text on its own. */
  lemma {:induction false} SplitAppend(a: string, b: string, sep: char)
    ensures Split(a + [sep] + b, sep) == Split(a, sep) + Split(b, sep)
    decreases |a|
  {
    var s := a + [sep] + b;
    if sep !in a {
      assert s[..|a|] == a && s[|a| + 1..] == b;
      SplitAt(s, sep, |a|);
    } else {
      var k := IndexOf(a, sep);
      var tail := a[k + 1..];
      assert s[..k] == a[..k] && s[k + 1..] == tail + [sep] + b;
      SplitAt(s, sep, k);
      SplitAt(a, sep, k);
      SplitAppend(tail, b, sep);
      ConcatAssoc([a[..k]], Split(tail, sep), Split(b, sep));
    }
  }

  lemma ConcatAssoc<T>(x: seq<T>, y: seq<T>, z: seq<T>)
    ensures x + (y + z) == (x + y) + z
  {
  }

  /** Split cuts at the first separator. */
  lemma SplitAt(s: string, sep: char, k: nat)
    requires k < |s| && s[k] == sep && sep !in s[..k]
    ensures Split(s, sep) == [s[..k]] + Split(s[k + 1..], sep)
  {
    IndexOfAt(s, sep, k);
  }

  /** The first occurrence of c, when c occurs at k and not before it. */
  lemma IndexOfAt(s: string, c: char, k: nat)
    requires k < |s| && s[k] == c && c !in s[..k]
    ensures IndexOf(s, c) == k
  {
    assert c in s by { assert s[k] == c; }
  }

  /** string.Join(sep, parts). */
  function Join(sep: string, parts: seq<string>): string {
    if parts == [] then ""
    else if |parts| == 1 then parts[0]
    else parts[0] + sep + Join(sep, parts[1..])
  }

  /** Joining the pieces of a split with the separator gives back the string. */
  lemma {:induction false} SplitJoin(s: string, sep: char)
    ensures Join([sep], Split(s, sep)) == s
    decreases |s|
  {
    var k := IndexOf(s, sep);
    if k != -1 {
      var rest := Split(s[k + 1..], sep);
      SplitJoin(s[k + 1..], sep);
      assert Split(s, sep) == [s[..k]] + rest;
      assert ([s[..k]] + rest)[1..] == rest;
      assert Join([sep], [s[..k]] + rest) == s[..k] + [sep] + Join([sep], rest);
      assert s == s[..k] + [sep] + s[k + 1..];
    }
  }

  /** s.Replace(pat, rep): left-to-right, non-overlapping replacement (ordinal). */
  function Replace(s: string, pat: string, rep: string): string
    requires |pat| > 0
    decreases |s|
  {
    if |s| < |pat| then s
    else if s[..|pat|] == pat then rep + Replace(s[|pat|..], pat, rep)
    else [s[0]] + Replace(s[1..], pat, rep)
  }

  /** Replace changes nothing in a string where the pattern does not occur. */
  lemma {:induction false} ReplaceAbsent(s: string, pat: string, rep: string)
    requires |pat| > 0
    requires forall k :: !OccursAt(s, pat, k)
    ensures Replace(s, pat, rep) == s
    decreases |s|
  {
    if |s| >= |pat| {
      assert !OccursAt(s, pat, 0);
      forall k ensures !OccursAt(s[1..], pat, k) {
        OccursInTail(s, pat, k);
      }
      ReplaceAbsent(s[1..], pat, rep);
    }
  }

  /** No occurrence of pat in a + b starts in a and ends in b. */
  predicate NoStraddle(a: string, b: string, pat: string) {
    forall k :: |a| - |pat| < k < |a| ==> !OccursAt(a + b, pat, k)
  }

  /** Dropping the first d characters of a keeps occurrences from straddling. */
  lemma NoStraddleTail(a: string, b: string, pat: string, d: nat)
    requires NoStraddle(a, b, pat) && d <= |a|
    ensures NoStraddle(a[d..], b, pat)
  {
    var s := a + b;
    assert s[d..] == a[d..] + b;
    forall k | |a[d..]| - |pat| < k < |a[d..]|
      ensures !OccursAt(a[d..] + b, pat, k)
    {
      if k >= 0 {
        OccursInSuffix(s, pat, d, k);
      }
    }
  }

  /** Replace works on two texts separately when no occurrence of the pattern straddles the point where they meet. */
  lemma {:induction false} ReplaceAppend(a: string, b: string, pat: string, rep: string)
    requires |pat| > 0 && NoStraddle(a, b, pat)
    ensures Replace(a + b, pat, rep) == Replace(a, pat, rep) + Replace(b, pat, rep)
    decreases |a|, 1
  {
    var s := a + b;
    if a == [] {
      assert s == b;
    } else if |s| < |pat| {
      assert Replace(s, pat, rep) == s;
    } else if s[..|pat|] == pat {
      ReplaceAppendMatch(a, b, pat, rep);
    } else {
      ReplaceAppendSkip(a, b, pat, rep);
    }
  }

  /** ReplaceAppend when the pattern starts the text: it lies inside a. */
  lemma {:induction false} ReplaceAppendMatch(a: string, b: string, pat: string, rep: string)
    requires |pat| > 0 && NoStraddle(a, b, pat)
    requires a != [] && |a + b| >= |pat| && (a + b)[..|pat|] == pat
    ensures Replace(a + b, pat, rep) == Replace(a, pat, rep) + Replace(b, pat, rep)
    decreases |a|, 0
  {
    var s := a + b;
    if |a| < |pat| {
      assert OccursAt(s, pat, 0);
      assert false;
    }
    assert a[..|pat|] == pat;
    assert s[|pat|..] == a[|pat|..] + b;
    NoStraddleTail(a, b, pat, |pat|);
    ReplaceAppend(a[|pat|..], b, pat, rep);
    ConcatAssoc(rep, Replace(a[|pat|..], pat, rep), Replace(b, pat, rep));
  }

  /** ReplaceAppend when the pattern does not start the text: the first character is kept. */
  lemma {:induction false} ReplaceAppendSkip(a: string, b: string, pat: string, rep: string)
    requires |pat| > 0 && NoStraddle(a, b, pat)
    requires a != [] && |a + b| >= |pat| && (a + b)[..|pat|] != pat
    ensures Replace(a + b, pat, rep) == Replace(a, pat, rep) + Replace(b, pat, rep)
    decreases |a|, 0
  {
    var s := a + b;
    assert s == [a[0]] + (a[1..] + b);
    NoStraddleTail(a, b, pat, 1);
    ReplaceAppend(a[1..], b, pat, rep);
    if |a| >= |pat| {
      assert a[..|pat|] == s[..|pat|];
    } else {
      assert Replace(a[1..], pat, rep) == a[1..];
      assert a == [a[0]] + a[1..];
    }
    ConcatAssoc([a[0]], Replace(a[1..], pat, rep), Replace(b, pat, rep));
  }

  /** A text that starts with the pattern has its replacement first. */
  lemma ReplaceHead(pat: string, rep: string, b: string)
    requires |pat| > 0
    ensures Replace(pat + b, pat, rep) == rep + Replace(b, pat, rep)
  {
    assert (pat + b)[..|pat|] == pat && (pat + b)[|pat|..] == b;
  }

  lemma OccursInSuffix(s: string, pat: string, d: nat, k: int)
    requires d <= |s| && 0 <= k
    ensures OccursAt(s[d..], pat, k) ==> OccursAt(s, pat, k + d)
  {
    if OccursAt(s[d..], pat, k) {
      assert s[k + d..k + d + |pat|] == s[d..][k..k + |pat|];
    }
  }

  lemma OccursInTail(s: string, pat: string, k: int)
    requires s != []
    ensures OccursAt(s[1..], pat, k) ==> OccursAt(s, pat, k + 1)
  {
    if OccursAt(s[1..], pat, k) {
      assert s[k + 1..k + 1 + |pat|] == s[1..][k..k + |pat|];
    }
  }

  // ---------------------------------------------------------------- decimal numbers

  predicate IsDigit(c: char) {
    '0' <= c <= '9'
  }

  predicate AllDigits(s: string) {
    forall k :: 0 <= k < |s| ==> IsDigit(s[k])
  }

  function DigitChar(d: nat): (c: char)
    requires d < 10
    ensures IsDigit(c) && c as int - '0' as int == d
  {
    ('0' as int + d) as char
  }

  /** The decimal text of n, as int.ToString() / long.ToString() print it. */
  function NatToString(n: nat): (r: string)
    ensures |r| >= 1 && AllDigits(r)
  {
    if n < 10 then [DigitChar(n)] else NatToString(n / 10) + [DigitChar(n % 10)]
  }

  function DigitsValue(s: string): nat
    requires AllDigits(s)
  {
    if s == [] then 0 else DigitsValue(s[..|s| - 1]) * 10 + (s[|s| - 1] as int - '0' as int)
  }

  lemma {:induction false} DigitsValueOfNatToString(n: nat)
    ensures DigitsValue(NatToString(n)) == n
  {
    if n >= 10 {
      DigitsValueOfNatToString(n / 10);
      var s := NatToString(n);
      assert s[..|s| - 1] == NatToString(n / 10);
    }
  }

  /** A decimal number has no white space to trim. */
  lemma DigitsTrimmed(s: string)
    requires s != [] && AllDigits(s)
    ensures TrimWhiteSpace(s) == s
  {
    DigitNotWhiteSpace(s[0]);
    DigitNotWhiteSpace(s[|s| - 1]);
    TrimUnpadded(s, WhiteSpace);
  }

  lemma DigitNotWhiteSpace(c: char)
    requires IsDigit(c)
    ensures c !in WhiteSpace
  {
  }

  const LongMin: int := -0x8000_0000_0000_0000
  const LongMax: int := 0x7FFF_FFFF_FFFF_FFFF

  /** The white space long.TryParse accepts around a number (NumberStyles.Integer). */
  const NumberWhiteSpace: set<char> := {'\t', '\n', '\U{000B}', '\U{000C}', '\r', ' '}

  /**
   * long.TryParse with NumberStyles.Integer: optional surrounding white space,
   * an optional leading sign, at least one decimal digit, and a value in the
   * range of a 64-bit signed integer. None is the false return.
   */
  function ParseLong(s: string): (r: Option<int>)
    ensures r.Some? ==> LongMin <= r.value <= LongMax
  {
    ParseSigned(Trim(s, NumberWhiteSpace))
  }

  /** The sign-and-digits core of ParseLong, after the white space is trimmed. */
  function ParseSigned(t: string): (r: Option<int>)
    ensures r.Some? ==> LongMin <= r.value <= LongMax
    ensures r.Some? ==> t != [] && (IsDigit(t[0]) || t[0] == '-' || t[0] == '+')
  {
    if t == [] then None
    else
      var digits := if t[0] == '-' || t[0] == '+' then t[1..] else t;
      if digits == [] || !AllDigits(digits) then None
      else
        var d: int := DigitsValue(digits);
        var v := if t[0] == '-' then -d else d;
        if LongMin <= v <= LongMax then Some(v) else None
  }

  /** What NatToString prints, ParseLong reads back. */
  lemma {:induction false} ParseLongNatToString(n: nat)
    requires n <= LongMax
    ensures ParseLong(NatToString(n)) == Some(n)
  {
    var s := NatToString(n);
    assert s[0] !in NumberWhiteSpace && s[|s| - 1] !in NumberWhiteSpace by {
      assert IsDigit(s[0]) && IsDigit(s[|s| - 1]);
    }
    TrimUnpadded(s, NumberWhiteSpace);
    DigitsValueOfNatToString(n);
    ParseSignedDigits(s);
  }

  /** Unsigned digits in range parse to their value. */
  lemma ParseSignedDigits(s: string)
    requires s != [] && AllDigits(s) && DigitsValue(s) <= LongMax
    ensures ParseSigned(s) == Some(DigitsValue(s))
  {
    assert IsDigit(s[0]);
  }
}
