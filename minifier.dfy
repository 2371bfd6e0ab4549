/**
 * The text helpers of the Minifier static class: the StringBuilder the passes
 * append to, the scanners that move an index over a string (Skip,
 * SkipWhiteSpace, AppendNextWord, AppendUntil), GetRows, TrimSpacesAround and
 * ClearJavaScriptCode. Each scanner is a method with its loop, proved against
 * a function that names the position where the loop stops.
 */
module Minifier {
  import opened Strings

  /** System.Text.StringBuilder, as far as the minifier uses it. */
  class StringBuilder {
    var text: string

    constructor ()
      ensures text == []
    {
      text := [];
    }

    method Append(s: string)
      modifies this
      ensures text == old(text) + s
    {
      text := text + s;
    }

    method Clear()
      modifies this
      ensures text == []
    {
      text := [];
    }
  }

  /** A position reached by a scan and the text produced so far. */
  datatype Scan = Scan(pos: nat, text: string)

  /** How a pass ends: with its text, with IndexOutOfRangeException, or never. */
  datatype Outcome = Done(text: string) | OutOfRange | Diverges

  /** The characters HTML, CSS and JavaScript pass to Skip. */
  const Blank: set<char> := {' ', '\t', '\r', '\n'}

  // ---------------------------------------------------------------- scanners

  /** Where Skip(str, ref i, chars) leaves i: the first position at or after i not holding one of chars. */
  function SkipFrom(s: string, i: nat, chars: set<char>): (r: nat)
    ensures i <= r && (i <= |s| ==> r <= |s|) && (|s| <= i ==> r == i)
    ensures forall k {:trigger s[k] in chars} :: i <= k < r ==> s[k] in chars
    ensures r < |s| ==> s[r] !in chars
    decreases |s| - i
  {
    if i < |s| && s[i] in chars then SkipFrom(s, i + 1, chars) else i
  }

  /** Where SkipWhiteSpace(str, ref i) leaves i: the first position at or after i that is not white space. */
  function SkipWhiteSpaceFrom(s: string, i: nat): (r: nat)
    ensures i <= r && (i <= |s| ==> r <= |s|) && (|s| <= i ==> r == i)
    ensures forall k :: i <= k < r ==> IsWhiteSpace(s[k])
    ensures r < |s| ==> !IsWhiteSpace(s[r])
    decreases |s| - i
  {
    if i < |s| && IsWhiteSpace(s[i]) then SkipWhiteSpaceFrom(s, i + 1) else i
  }

  /** The end of the word AppendNextWord copies from i: the first white space or limit character, or the end. */
  function WordEnd(s: string, i: nat, limit: set<char>): (r: nat)
    ensures i <= r && (i <= |s| ==> r <= |s|) && (|s| <= i ==> r == i)
    ensures forall k :: i <= k < r ==> !IsWhiteSpace(s[k]) && s[k] !in limit
    ensures r < |s| ==> IsWhiteSpace(s[r]) || s[r] in limit
    decreases |s| - i
  {
    if i < |s| && !IsWhiteSpace(s[i]) && s[i] !in limit then WordEnd(s, i + 1, limit) else i
  }

  /** Where AppendUntil stops: the first position at or after i whose character satisfies limit, or the end. */
  function UntilEnd(s: string, i: nat, limit: char -> bool): (r: nat)
    ensures i <= r && (i <= |s| ==> r <= |s|) && (|s| <= i ==> r == i)
    ensures forall k :: i <= k < r ==> !limit(s[k])
    ensures r < |s| ==> limit(s[r])
    decreases |s| - i
  {
    if i < |s| && !limit(s[i]) then UntilEnd(s, i + 1, limit) else i
  }

  /** The limit c => c == q. */
  function Is(q: char): char -> bool {
    c => c == q
  }

  /** The scanners only read from the position they start at: a prefix shifts the result by its length. */
  lemma {:induction false} SkipShift(p: string, s: string, i: nat, chars: set<char>)
    ensures SkipFrom(p + s, |p| + i, chars) == |p| + SkipFrom(s, i, chars)
    decreases |s| - i
  {
    if i < |s| {
      assert (p + s)[|p| + i] == s[i];
      if s[i] in chars {
        SkipShift(p, s, i + 1, chars);
      }
    }
  }

  lemma {:induction false} SkipWhiteSpaceShift(p: string, s: string, i: nat)
    ensures SkipWhiteSpaceFrom(p + s, |p| + i) == |p| + SkipWhiteSpaceFrom(s, i)
    decreases |s| - i
  {
    if i < |s| {
      assert (p + s)[|p| + i] == s[i];
      if IsWhiteSpace(s[i]) {
        SkipWhiteSpaceShift(p, s, i + 1);
      }
    }
  }

  lemma {:induction false} WordEndShift(p: string, s: string, i: nat, limit: set<char>)
    ensures WordEnd(p + s, |p| + i, limit) == |p| + WordEnd(s, i, limit)
    decreases |s| - i
  {
    if i < |s| {
      assert (p + s)[|p| + i] == s[i];
      if !IsWhiteSpace(s[i]) && s[i] !in limit {
        WordEndShift(p, s, i + 1, limit);
      }
    }
  }

  lemma {:induction false} UntilEndShift(p: string, s: string, i: nat, limit: char -> bool)
    ensures UntilEnd(p + s, |p| + i, limit) == |p| + UntilEnd(s, i, limit)
    decreases |s| - i
  {
    if i < |s| {
      assert (p + s)[|p| + i] == s[i];
      if !limit(s[i]) {
        UntilEndShift(p, s, i + 1, limit);
      }
    }
  }

  /** The closing mark of a comment, '*' then '/', starts at m. */
  predicate ClosesAt(s: string, m: int) {
    0 <= m && m + 1 < |s| && s[m] == '*' && s[m + 1] == '/'
  }

  /** The first position at or after k where a closing mark starts; -1 when there is none. */
  function CloseFrom(s: string, k: nat): (r: int)
    ensures r == -1 || (k <= r && ClosesAt(s, r))
    ensures forall m :: k <= m && (r == -1 || m < r) ==> !ClosesAt(s, m)
    decreases |s| - k
  {
    if k + 2 > |s| then -1
    else if s[k] == '*' && s[k + 1] == '/' then k
    else CloseFrom(s, k + 1)
  }

  /** CloseFrom is file.IndexOf("*" + "/", k): the search for the two-character string. */
  lemma {:induction false} CloseFromIsIndexOf(s: string, k: nat)
    requires k <= |s|
    ensures CloseFrom(s, k) == IndexOfFrom(s, "*/", k)
    decreases |s| - k
  {
    if k + 2 <= |s| {
      assert s[k..k + 2] == "*/" <==> s[k] == '*' && s[k + 1] == '/' by {
        if s[k] == '*' && s[k + 1] == '/' {
          assert s[k..k + 2] == [s[k], s[k + 1]];
        }
      }
      if !(s[k] == '*' && s[k + 1] == '/') {
        CloseFromIsIndexOf(s, k + 1);
      }
    }
  }

  /** file.IndexOf("*" + "/", k), the call the passes make to find where a comment closes. */
  method IndexOfClose(s: string, k: nat) returns (end: int)
    requires k <= |s|
    ensures end == CloseFrom(s, k)
  {
    end := IndexOfFrom(s, "*/", k);
    CloseFromIsIndexOf(s, k);
  }

  lemma {:induction false} CloseFromShift(p: string, s: string, k: nat)
    ensures CloseFrom(p + s, |p| + k) == var r := CloseFrom(s, k); if r < 0 then -1 else |p| + r
    decreases |s| - k
  {
    if k + 2 <= |s| {
      assert (p + s)[|p| + k] == s[k] && (p + s)[|p| + k + 1] == s[k + 1];
      if !(s[k] == '*' && s[k + 1] == '/') {
        CloseFromShift(p, s, k + 1);
      }
    }
  }

  method Skip(str: string, i0: nat, chars: set<char>) returns (i: nat)
    ensures i == SkipFrom(str, i0, chars)
  {
    i := i0;
    while i < |str| && str[i] in chars
      invariant i0 <= i && SkipFrom(str, i, chars) == SkipFrom(str, i0, chars)
      decreases |str| - i
    {
      i := i + 1;
    }
  }

  method SkipWhiteSpace(str: string, i0: nat) returns (i: nat)
    ensures i == SkipWhiteSpaceFrom(str, i0)
  {
    i := i0;
    while i < |str| && IsWhiteSpace(str[i])
      invariant i0 <= i && SkipWhiteSpaceFrom(str, i) == SkipWhiteSpaceFrom(str, i0)
      decreases |str| - i
    {
      i := i + 1;
    }
  }

  /**
   * AppendNextWord: skip white space, then copy the maximal run of characters
   * that are neither white space nor in limit.
   */
  method AppendNextWord(builder: StringBuilder, str: string, i0: nat, limit: set<char>) returns (i: nat)
    modifies builder
    ensures var k := SkipWhiteSpaceFrom(str, i0);
      && i == WordEnd(str, k, limit)
      && (k <= |str| ==> builder.text == old(builder.text) + str[k..i])
      && (|str| < k ==> builder.text == old(builder.text))
  {
    i := SkipWhiteSpace(str, i0);
    ghost var k := i;
    while i < |str| && !IsWhiteSpace(str[i]) && str[i] !in limit
      invariant k <= i && WordEnd(str, i, limit) == WordEnd(str, k, limit)
      invariant k <= |str| ==> i <= |str| && builder.text == old(builder.text) + str[k..i]
      invariant |str| < k ==> i == k && builder.text == old(builder.text)
      decreases |str| - i
    {
      builder.Append([str[i]]);
      i := i + 1;
    }
  }

  /** AppendUntil: copy characters until one satisfies limit, or to the end. */
  method AppendUntil(builder: StringBuilder, str: string, i0: nat, limit: char -> bool) returns (i: nat)
    modifies builder
    ensures i == UntilEnd(str, i0, limit)
    ensures i0 <= |str| ==> builder.text == old(builder.text) + str[i0..i]
    ensures |str| < i0 ==> builder.text == old(builder.text)
  {
    i := i0;
    while i < |str| && !limit(str[i])
      invariant i0 <= i && UntilEnd(str, i, limit) == UntilEnd(str, i0, limit)
      invariant i0 <= |str| ==> i <= |str| && builder.text == old(builder.text) + str[i0..i]
      invariant |str| < i0 ==> i == i0 && builder.text == old(builder.text)
      decreases |str| - i
    {
      builder.Append([str[i]]);
      i := i + 1;
    }
  }

  // ---------------------------------------------------------------- GetRows

  /** The characters every row is trimmed of. */
  const RowTrim: set<char> := {' ', '\t', '\r'}

  /** Select(x => x.Trim(' ', '\t', '\r')). */
  function TrimRows(parts: seq<string>): (r: seq<string>)
    ensures |r| == |parts| && forall k :: 0 <= k < |parts| ==> r[k] == Trim(parts[k], RowTrim)
  {
    if parts == [] then [] else [Trim(parts[0], RowTrim)] + TrimRows(parts[1..])
  }

  /** includeRow?.Invoke(x) ?? true; None stands for a null includeRow. */
  predicate Included(includeRow: Option<string -> bool>, x: string) {
    includeRow.None? || includeRow.value(x)
  }

  /** Where(x => x.Length > 0 && (includeRow?.Invoke(x) ?? true)), order kept. */
  function KeepRows(rows: seq<string>, includeRow: Option<string -> bool>): (r: seq<string>)
    ensures forall x :: x in r <==> x in rows && |x| > 0 && Included(includeRow, x)
    ensures |r| <= |rows|
  {
    if rows == [] then []
    else if |rows[0]| > 0 && Included(includeRow, rows[0]) then [rows[0]] + KeepRows(rows[1..], includeRow)
    else KeepRows(rows[1..], includeRow)
  }

  /** Where keeps the order: the rows kept from a list are those kept from its front, then those kept from its back. */
  lemma {:induction false} KeepRowsAppend(a: seq<string>, b: seq<string>, includeRow: Option<string -> bool>)
    ensures KeepRows(a + b, includeRow) == KeepRows(a, includeRow) + KeepRows(b, includeRow)
    decreases |a|
  {
    if a != [] {
      assert (a + b)[0] == a[0];
      assert (a + b)[1..] == a[1..] + b;
      KeepRowsAppend(a[1..], b, includeRow);
    } else {
      assert a + b == b;
    }
  }

  /** A single row is kept exactly when it is non-empty and includeRow accepts it. */
  lemma KeepRowsOne(x: string, includeRow: Option<string -> bool>)
    ensures KeepRows([x], includeRow) == if |x| > 0 && Included(includeRow, x) then [x] else []
  {
    assert [x][1..] == [];
  }

  /** A row that Trim(' ', '\t', '\r') cannot shorten and that has no line break. */
  predicate TrimmedRow(x: string) {
    |x| > 0 && x[0] !in RowTrim && x[|x| - 1] !in RowTrim && '\n' !in x
  }

  /** Trimming keeps a slice of the line, so a line without a break gives a row without one. */
  lemma TrimmedHasNoBreak(s: string)
    requires '\n' !in s
    ensures '\n' !in Trim(s, RowTrim)
  {
    var x := Trim(s, RowTrim);
    var a := |s| - |TrimStart(s, RowTrim)|;
    TrimBounds(s, RowTrim);
    assert forall m :: 0 <= m < |x| ==> x[m] == s[a + m];
  }

  /** Every non-empty trimmed line is a trimmed row when the lines have no break. */
  lemma TrimmedLines(parts: seq<string>)
    requires forall k :: 0 <= k < |parts| ==> '\n' !in parts[k]
    ensures forall x :: x in TrimRows(parts) && |x| > 0 ==> TrimmedRow(x)
  {
    var ts := TrimRows(parts);
    forall x | x in ts && |x| > 0 ensures TrimmedRow(x) {
      var k :| 0 <= k < |ts| && ts[k] == x;
      TrimmedHasNoBreak(parts[k]);
    }
  }

  /**
   * GetRows: the lines of file, each trimmed of ' ', '\t' and '\r', keeping
   * exactly the non-empty ones that includeRow accepts, in their order.
   */
  function GetRows(file: string, includeRow: Option<string -> bool>): (rows: seq<string>)
    ensures forall x :: x in rows <==> x in TrimRows(Split(file, '\n')) && |x| > 0 && Included(includeRow, x)
    ensures forall k :: 0 <= k < |rows| ==> TrimmedRow(rows[k]) && Included(includeRow, rows[k])
  {
    TrimmedLines(Split(file, '\n'));
    KeepRows(TrimRows(Split(file, '\n')), includeRow)
  }

  /** The rows of two texts joined by a line break are the rows of the first, then the rows of the second. */
  lemma GetRowsAppend(a: string, b: string, includeRow: Option<string -> bool>)
    ensures GetRows(a + "\n" + b, includeRow) == GetRows(a, includeRow) + GetRows(b, includeRow)
  {
    var pa, pb := Split(a, '\n'), Split(b, '\n');
    SplitAppend(a, b, '\n');
    TrimRowsAppend(pa, pb);
    KeepRowsAppend(TrimRows(pa), TrimRows(pb), includeRow);
  }

  lemma {:induction false} TrimRowsAppend(a: seq<string>, b: seq<string>)
    ensures TrimRows(a + b) == TrimRows(a) + TrimRows(b)
    decreases |a|
  {
    if a == [] {
      assert a + b == b;
    } else {
      assert (a + b)[0] == a[0];
      assert (a + b)[1..] == a[1..] + b;
      TrimRowsAppend(a[1..], b);
    }
  }

  /** A text without a line break gives its trimmed self as its only row, when that is non-empty and accepted. */
  lemma GetRowsLine(x: string, includeRow: Option<string -> bool>)
    requires '\n' !in x
    ensures var t := Trim(x, RowTrim);
      GetRows(x, includeRow) == if |t| > 0 && Included(includeRow, t) then [t] else []
  {
    assert Split(x, '\n') == [x];
    assert TrimRows([x]) == [Trim(x, RowTrim)];
    KeepRowsOne(Trim(x, RowTrim), includeRow);
  }

  // ---------------------------------------------------------------- TrimSpacesAround

  /** The string with every ' ' taken out. */
  function Unspaced(s: string): string {
    if s == [] then [] else (if s[0] == ' ' then [] else [s[0]]) + Unspaced(s[1..])
  }

  lemma {:induction false} UnspacedAppend(a: string, b: string)
    ensures Unspaced(a + b) == Unspaced(a) + Unspaced(b)
  {
    if a == [] {
      assert a + b == b;
    } else {
      assert (a + b)[0] == a[0];
      assert (a + b)[1..] == a[1..] + b;
      UnspacedAppend(a[1..], b);
    }
  }

  /** A replacement whose pattern differs from its replacement only by spaces takes out spaces and nothing else. */
  lemma {:induction false} ReplaceOnlySpaces(s: string, pat: string, rep: string)
    requires |pat| > 0 && Unspaced(pat) == Unspaced(rep) && |rep| <= |pat|
    ensures Unspaced(Replace(s, pat, rep)) == Unspaced(s) && |Replace(s, pat, rep)| <= |s|
    decreases |s|
  {
    if |s| >= |pat| {
      if s[..|pat|] == pat {
        ReplaceOnlySpaces(s[|pat|..], pat, rep);
        UnspacedAppend(rep, Replace(s[|pat|..], pat, rep));
        assert s == pat + s[|pat|..];
        UnspacedAppend(pat, s[|pat|..]);
      } else {
        ReplaceOnlySpaces(s[1..], pat, rep);
        UnspacedAppend([s[0]], Replace(s[1..], pat, rep));
        assert s == [s[0]] + s[1..];
        UnspacedAppend([s[0]], s[1..]);
      }
    }
  }

  /** str.TrimSpacesAround(c): " c" becomes "c", then "c " becomes "c". */
  function TrimSpacesAround(str: string, c: char): string {
    Replace(Replace(str, [' ', c], [c]), [c, ' '], [c])
  }

  /** TrimSpacesAround only takes out spaces: every other character keeps its order. */
  lemma TrimSpacesAroundUnspaced(str: string, c: char)
    ensures var r := TrimSpacesAround(str, c); Unspaced(r) == Unspaced(str) && |r| <= |str|
  {
    var once := Replace(str, [' ', c], [c]);
    ReplaceOnlySpaces(str, [' ', c], [c]);
    assert Unspaced([' ', c]) == Unspaced([c]) by {
      assert [' ', c] == [' '] + [c];
      UnspacedAppend([' '], [c]);
    }
    ReplaceOnlySpaces(once, [c, ' '], [c]);
    assert Unspaced([c, ' ']) == Unspaced([c]) by {
      assert [c, ' '] == [c] + [' '];
      UnspacedAppend([c], [' ']);
    }
  }

  /** The first replacement of TrimSpacesAround(c) turns each " c" into "c" and leaves the text on either side to itself. */
  lemma ReplaceSpaceBefore(a: string, b: string, c: char)
    requires c != ' '
    ensures Replace(a + [' ', c] + b, [' ', c], [c]) == Replace(a, [' ', c], [c]) + [c] + Replace(b, [' ', c], [c])
  {
    var rest := [' ', c] + b;
    assert a + [' ', c] + b == a + rest;
    NoStraddleBefore(a, rest, c);
    ReplaceAppend(a, rest, [' ', c], [c]);
    ReplaceHead([' ', c], [c], b);
    ConcatAssoc(Replace(a, [' ', c], [c]), [c], Replace(b, [' ', c], [c]));
  }

  lemma NoStraddleBefore(a: string, rest: string, c: char)
    requires c != ' ' && |rest| >= 1 && rest[0] == ' '
    ensures NoStraddle(a, rest, [' ', c])
  {
    forall k | |a| - 2 < k < |a|
      ensures !OccursAt(a + rest, [' ', c], k)
    {
      assert (a + rest)[k + 1] == ' ';
    }
  }

  /** The second replacement of TrimSpacesAround(c) turns each "c " into "c" and leaves the text on either side to itself. */
  lemma ReplaceSpaceAfter(a: string, b: string, c: char)
    requires c != ' '
    ensures Replace(a + [c, ' '] + b, [c, ' '], [c]) == Replace(a, [c, ' '], [c]) + [c] + Replace(b, [c, ' '], [c])
  {
    var rest := [c, ' '] + b;
    assert a + [c, ' '] + b == a + rest;
    NoStraddleAfter(a, rest, c);
    ReplaceAppend(a, rest, [c, ' '], [c]);
    ReplaceHead([c, ' '], [c], b);
    ConcatAssoc(Replace(a, [c, ' '], [c]), [c], Replace(b, [c, ' '], [c]));
  }

  lemma NoStraddleAfter(a: string, rest: string, c: char)
    requires c != ' ' && |rest| >= 1 && rest[0] == c
    ensures NoStraddle(a, rest, [c, ' '])
  {
    forall k | |a| - 2 < k < |a|
      ensures !OccursAt(a + rest, [c, ' '], k)
    {
      assert (a + rest)[k + 1] == c;
    }
  }

  /**
   * The params overload: TrimSpacesAround for each character in turn. (str
   * is part of the decreases clause so that the definition is unrolled only
   * for a known text, not for the constant operator list alone.)
   */
  function TrimSpacesAroundAll(str: string, chars: seq<char>): string
    decreases |chars|, str
  {
    if chars == [] then str else TrimSpacesAroundAll(TrimSpacesAround(str, chars[0]), chars[1..])
  }

  /** The params overload only takes out spaces too. */
  lemma {:induction false} TrimSpacesAroundAllUnspaced(str: string, chars: seq<char>)
    ensures var r := TrimSpacesAroundAll(str, chars); Unspaced(r) == Unspaced(str) && |r| <= |str|
    decreases |chars|
  {
    if chars != [] {
      TrimSpacesAroundUnspaced(str, chars[0]);
      TrimSpacesAroundAllUnspaced(TrimSpacesAround(str, chars[0]), chars[1..]);
    }
  }

  method TrimSpacesAroundEach(str: string, chars: seq<char>) returns (r: string)
    ensures r == TrimSpacesAroundAll(str, chars)
  {
    r := str;
    for k := 0 to |chars|
      invariant TrimSpacesAroundAll(r, chars[k..]) == TrimSpacesAroundAll(str, chars)
    {
      assert chars[k..][1..] == chars[k + 1..];
      r := TrimSpacesAround(r, chars[k]);
    }
  }

  /** The operators ClearJavaScriptCode trims spaces around, in its order ('[' and ']' twice). */
  const Operators: seq<char> := ['(', ')', '{', '}', '[', ']', '[', ']', '=', '*', '+', '/', '-', ';', ':']

  /** ClearJavaScriptCode: TrimSpacesAround over the operators. */
  function ClearJavaScriptCode(str: string): string {
    TrimSpacesAroundAll(str, Operators)
  }

  /** ClearJavaScriptCode only ever removes spaces. */
  lemma ClearJavaScriptCodeUnspaced(str: string)
    ensures var r := ClearJavaScriptCode(str); Unspaced(r) == Unspaced(str) && |r| <= |str|
  {
    TrimSpacesAroundAllUnspaced(str, Operators);
  }
}
