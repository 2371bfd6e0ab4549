/**
 * Minifier.JavaScript: the script is trimmed, cut into rows without the
 * "//" rows and joined back with single spaces; one pass then collects code
 * in a cache, folds each run of blanks into one ' ', drops block comments,
 * and copies quoted string literals untouched. The cache goes through
 * ClearJavaScriptCode before a literal and at the end.
 *
 * The pass is a function of the loop's state (JsFrom) and the method
 * JavaScript is proved to compute it. As written, the blank case skips only
 * ' ', '\t', '\r' and '\n' although it is entered for any white space, so a
 * white-space character outside those four keeps the loop where it is
 * forever; JsFrom then gives Diverges. The flag blankOnly selects this
 * behaviour, and the corrected pass, which skips all white space, is stated
 * beside it.
 */
module MinifierJavaScript {
  import opened Strings
  import opened Minifier

  // ---------------------------------------------------------------- the text the loop walks

  /** x => !x.StartsWith("//"). */
  predicate NotLineComment(x: string) {
    !StartsWith(x, "//")
  }

  /** GetRows(file.Trim(' ', '\t', '\r', '\n'), x => !x.StartsWith("//")). */
  function Rows(file: string): seq<string> {
    GetRows(Trim(file, Blank), Some(NotLineComment))
  }

  /** string.Join(" ", rows). */
  function Prepared(file: string): string {
    Join(" ", Rows(file))
  }

  /** The rows kept are exactly the non-empty trimmed lines that do not start with "//". */
  lemma RowsKept(file: string)
    ensures var lines := TrimRows(Split(Trim(file, Blank), '\n'));
      forall x :: x in Rows(file) <==> x in lines && |x| > 0 && !StartsWith(x, "//")
  {
    forall x ensures Included(Some(NotLineComment), x) <==> !StartsWith(x, "//") {
    }
  }

  /** The rows keep the order of the lines: those before a line break come before those after it. */
  lemma RowsInOrder(file: string, a: string, b: string)
    requires Trim(file, Blank) == a + "\n" + b
    ensures Rows(file) == GetRows(a, Some(NotLineComment)) + GetRows(b, Some(NotLineComment))
  {
    GetRowsAppend(a, b, Some(NotLineComment));
  }

  /** Each row is trimmed of ' ', '\t' and '\r', has no line break and does not start with "//". */
  lemma RowsTrimmed(file: string)
    ensures forall k :: 0 <= k < |Rows(file)| ==> TrimmedRow(Rows(file)[k]) && !StartsWith(Rows(file)[k], "//")
  {
    var rows := Rows(file);
    assert forall k :: 0 <= k < |rows| ==> Included(Some(NotLineComment), rows[k]);
  }

  /** The rows are joined with single spaces, so the text the loop walks has no line break. */
  lemma PreparedHasNoBreak(file: string)
    ensures '\n' !in Prepared(file)
  {
    RowsTrimmed(file);
    JoinedWithoutBreak(Rows(file));
  }

  /** Rows without a line break joined with spaces give a text without one. */
  lemma {:induction false} JoinedWithoutBreak(rows: seq<string>)
    requires forall k :: 0 <= k < |rows| ==> TrimmedRow(rows[k])
    ensures '\n' !in Join(" ", rows)
  {
    if |rows| > 1 {
      JoinedWithoutBreak(rows[1..]);
      assert '\n' !in rows[0];
    } else if |rows| == 1 {
      assert TrimmedRow(rows[0]);
    }
  }

  /** A single line that no trimming shortens and that is not a "//" row is walked as it is. */
  lemma PreparedSingleLine(file: string)
    requires |file| > 0 && '\n' !in file && file[0] !in Blank && file[|file| - 1] !in Blank
    requires !StartsWith(file, "//")
    ensures Prepared(file) == file
  {
    TrimUnpadded(file, Blank);
    assert file[0] !in RowTrim && file[|file| - 1] !in RowTrim;
    SingleLineRows(file);
  }

  /** GetRows keeps a single line that no trimming shortens and that is not a "//" row as the only row. */
  lemma SingleLineRows(line: string)
    requires |line| > 0 && '\n' !in line && line[0] !in RowTrim && line[|line| - 1] !in RowTrim
    requires !StartsWith(line, "//")
    ensures GetRows(line, Some(NotLineComment)) == [line]
  {
    assert Split(line, '\n') == [line];
    TrimUnpadded(line, RowTrim);
    assert TrimRows([line]) == [line];
    assert Included(Some(NotLineComment), line);
    assert KeepRows([line], Some(NotLineComment)) == [line] by {
      assert [line][1..] == [];
    }
  }

  // ---------------------------------------------------------------- the pass as functions

  /** Where the loop is: i, the builder's text and the cache's text. */
  datatype Pass = Pass(pos: nat, built: string, cache: string)

  /** What one turn of the loop does: go on from a new state, break, or stay where it is for ever. */
  datatype Move = Next(pass: Pass) | Break | Stuck

  /** builder.Append(cache.ToString().ClearJavaScriptCode()). */
  function Flush(p: Pass): string {
    p.built + ClearJavaScriptCode(p.cache)
  }

  /** The text returned once the loop is over: the cache is flushed when it is not empty. */
  function Finish(p: Pass): string {
    if |p.cache| > 0 then Flush(p) else p.built
  }

  /** The quote at m ends the literal: it is q and the character before it is not '\'. */
  predicate ClosesQuote(s: string, m: int, q: char) {
    1 <= m < |s| && s[m] == q && s[m - 1] != '\\'
  }

  /** The while (++i < file.Length) loop of a literal opened by q: the index of its closing quote, or the length. */
  function QuoteEnd(s: string, k: nat, q: char): (r: nat)
    requires 1 <= k
    ensures k <= r && (k <= |s| ==> r <= |s|) && (|s| <= k ==> r == k)
    ensures forall m :: k <= m < r ==> !ClosesQuote(s, m, q)
    ensures r < |s| ==> ClosesQuote(s, r, q)
    decreases |s| - k
  {
    if k < |s| && !ClosesQuote(s, k, q) then QuoteEnd(s, k + 1, q) else k
  }

  /**
   * One turn of the for loop at p.pos: white space, a block comment, a
   * quoted literal or any other character. blankOnly says whether the white
   * space case skips only the four blanks, as written.
   */
  function JsStep(file: string, p: Pass, blankOnly: bool): (r: Move)
    requires p.pos < |file|
    ensures r.Next? ==> p.pos < r.pass.pos
    ensures r.Stuck? ==> blankOnly
  {
    var i := p.pos;
    var c := file[i];
    if IsWhiteSpace(c) then
      var j := if blankOnly then SkipFrom(file, i, Blank) else SkipWhiteSpaceFrom(file, i);
      if j == i then Stuck else Next(Pass(j, p.built, p.cache + " "))
    else if i + 1 < |file| && c == '/' && file[i + 1] == '*' then
      var end := CloseFrom(file, i + 2);
      if end > 0 then Next(p.(pos := end + 2)) else Break
    else if c == '\'' || c == '"' then
      var k := QuoteEnd(file, i + 1, c);
      var stop := if k < |file| then k + 1 else |file|;
      Next(Pass(k + 1, Flush(p) + file[i..stop], []))
    else
      Next(p.(pos := i + 1, cache := p.cache + [c]))
  }

  /** The loop from state p to its end: the text it returns, or Diverges where it never ends. */
  function JsFrom(file: string, p: Pass, blankOnly: bool): Outcome
    decreases |file| - p.pos, 1
  {
    if p.pos >= |file| then Done(Finish(p)) else JsTurn(file, p, blankOnly)
  }

  /** The loop from its turn at state p on. */
  function JsTurn(file: string, p: Pass, blankOnly: bool): Outcome
    requires p.pos < |file|
    decreases |file| - p.pos, 0
  {
    var m := JsStep(file, p, blankOnly);
    if m.Next? then JsFrom(file, m.pass, blankOnly)
    else if m.Break? then Done(Finish(p))
    else Diverges
  }

  /** One turn of the loop, as JsFrom takes it. */
  lemma JsFromStep(file: string, p: Pass, blankOnly: bool)
    requires p.pos < |file|
    ensures var m := JsStep(file, p, blankOnly);
      JsFrom(file, p, blankOnly)
      == if m.Next? then JsFrom(file, m.pass, blankOnly) else if m.Break? then Done(Finish(p)) else Diverges
  {
  }

  /** The pass over the prepared text from an empty builder and cache. */
  function JsPass(file: string, blankOnly: bool): Outcome {
    JsFrom(Prepared(file), Pass(0, [], []), blankOnly)
  }

  /** Minifier.JavaScript as written. */
  function Js(file: string): Outcome {
    JsPass(file, true)
  }

  /** The pass with the white-space case skipping all white space. */
  function JsCorrected(file: string): Outcome {
    JsPass(file, false)
  }

  // ---------------------------------------------------------------- one turn, case by case

  /** A run of blanks adds one ' ' to the cache and the loop goes on after the run. */
  lemma JsStepBlank(file: string, p: Pass, blankOnly: bool)
    requires p.pos < |file| && file[p.pos] in Blank
    ensures var j := SkipFrom(file, p.pos, Blank);
      JsStep(file, p, blankOnly) == Next(Pass(if blankOnly then j else SkipWhiteSpaceFrom(file, p.pos), p.built, p.cache + " "))
  {
    assert IsWhiteSpace(file[p.pos]);
  }

  /** A block comment adds nothing; an unclosed one breaks the loop. */
  lemma JsStepComment(file: string, p: Pass, blankOnly: bool)
    requires p.pos + 1 < |file| && file[p.pos] == '/' && file[p.pos + 1] == '*'
    ensures var end := CloseFrom(file, p.pos + 2);
      JsStep(file, p, blankOnly) == if end >= 0 then Next(p.(pos := end + 2)) else Break
  {
    assert !IsWhiteSpace(file[p.pos]);
  }

  /** A literal flushes the cache and is copied from its opening quote to its closing one. */
  lemma JsStepQuote(file: string, p: Pass, blankOnly: bool)
    requires p.pos < |file| && (file[p.pos] == '\'' || file[p.pos] == '"')
    ensures var k := QuoteEnd(file, p.pos + 1, file[p.pos]);
      JsStep(file, p, blankOnly) == Next(Pass(k + 1, Flush(p) + file[p.pos..if k < |file| then k + 1 else |file|], []))
  {
    assert !IsWhiteSpace(file[p.pos]);
  }

  /** Any other character goes to the cache. */
  lemma JsStepOther(file: string, p: Pass, blankOnly: bool)
    requires p.pos < |file| && !IsWhiteSpace(file[p.pos]) && file[p.pos] != '/' && file[p.pos] != '\'' && file[p.pos] != '"'
    ensures JsStep(file, p, blankOnly) == Next(p.(pos := p.pos + 1, cache := p.cache + [file[p.pos]]))
  {
  }

  /** A character that is not white space, '/' or a quote goes to the cache, and the pass goes on after it. */
  lemma JsCopies(file: string, p: Pass, blankOnly: bool)
    requires p.pos < |file| && !IsWhiteSpace(file[p.pos]) && file[p.pos] != '/' && file[p.pos] != '\'' && file[p.pos] != '"'
    ensures JsFrom(file, p, blankOnly) == JsFrom(file, p.(pos := p.pos + 1, cache := p.cache + [file[p.pos]]), blankOnly)
  {
    JsStepOther(file, p, blankOnly);
    JsFromStep(file, p, blankOnly);
  }

  // ---------------------------------------------------------------- the method

  /** The literal's while loop: copies from the opening quote at i0 to its closing quote, or to the end. */
  method Quote(builder: StringBuilder, file: string, i0: nat) returns (i: nat)
    requires i0 < |file|
    modifies builder
    ensures i == QuoteEnd(file, i0 + 1, file[i0])
    ensures builder.text == old(builder.text) + file[i0..if i < |file| then i + 1 else |file|]
  {
    var first := file[i0];
    builder.Append([first]);
    i := i0 + 1;
    while i < |file|
      invariant i0 < i <= |file|
      invariant QuoteEnd(file, i, first) == QuoteEnd(file, i0 + 1, first)
      invariant builder.text == old(builder.text) + file[i0..i]
      decreases |file| - i
    {
      builder.Append([file[i]]);
      assert file[i0..i] + [file[i]] == file[i0..i + 1];
      if file[i] == first && file[i - 1] != '\\' {
        assert ClosesQuote(file, i, first);
        return;
      }
      i := i + 1;
    }
  }

  /**
   * The body of the for loop, to the loop's i++: i is where the next turn
   * starts; stop where it breaks, stuck where it would start again at i0 for
   * ever.
   */
  method Turn(builder: StringBuilder, cache: StringBuilder, file: string, i0: nat) returns (i: nat, stop: bool, stuck: bool)
    requires i0 < |file| && builder != cache
    modifies builder, cache
    ensures var m := JsStep(file, Pass(i0, old(builder.text), old(cache.text)), true);
      && (stuck ==> m.Stuck?)
      && (stop ==> m.Break? && builder.text == old(builder.text) && cache.text == old(cache.text))
      && (!stop && !stuck ==> m == Next(Pass(i, builder.text, cache.text)))
  {
    ghost var p := Pass(i0, builder.text, cache.text);
    var c := file[i0];
    if IsWhiteSpace(c) {
      cache.Append(" ");
      i := Skip(file, i0, Blank);
      return i, false, i == i0;
    }
    if i0 + 1 < |file| && c == '/' && file[i0 + 1] == '*' {
      var end := IndexOfClose(file, i0 + 2);
      if end > 0 {
        return end + 2, false, false;
      }
      return i0, true, false;
    }
    if c == '\'' || c == '"' {
      var tmp := ClearJavaScriptCode(cache.text);
      builder.Append(tmp);
      cache.Clear();
      assert builder.text == Flush(p);
      i := Quote(builder, file, i0);
      JsStepQuote(file, p, true);
      return i + 1, false, false;
    }
    cache.Append([c]);
    return i0 + 1, false, false;
  }

  /** Minifier.JavaScript; Diverges where the source's loop never ends (in the running program it stops only when memory runs out). */
  method JavaScript(file0: string) returns (r: Outcome)
    ensures r == Js(file0)
  {
    var file := Trim(file0, Blank);
    var rows := GetRows(file, Some(NotLineComment));
    file := Join(" ", rows);
    var builder := new StringBuilder();
    var cache := new StringBuilder();
    var i := 0;
    while i < |file|
      invariant JsFrom(file, Pass(i, builder.text, cache.text), true) == Js(file0)
      decreases |file| - i
    {
      JsFromStep(file, Pass(i, builder.text, cache.text), true);
      var stop, stuck;
      i, stop, stuck := Turn(builder, cache, file, i);
      if stuck {
        return Diverges;
      }
      if stop {
        break;
      }
    }
    if |cache.text| > 0 {
      var tmp := ClearJavaScriptCode(cache.text);
      builder.Append(tmp);
    }
    r := Done(builder.text);
  }

  // ---------------------------------------------------------------- properties

  /** A comment adds nothing and the loop resumes right after its closing mark; an unclosed one ends the pass. */
  lemma JsCommentDropped(file: string, p: Pass, blankOnly: bool)
    requires p.pos + 1 < |file| && file[p.pos] == '/' && file[p.pos + 1] == '*'
    ensures var end := CloseFrom(file, p.pos + 2);
      && (end >= 0 ==> JsFrom(file, p, blankOnly) == JsFrom(file, p.(pos := end + 2), blankOnly))
      && (end < 0 ==> JsFrom(file, p, blankOnly) == Done(Finish(p)))
  {
    JsStepComment(file, p, blankOnly);
    JsFromStep(file, p, blankOnly);
  }

  /** A run of blanks becomes one ' ' in the cache, and the loop resumes after the run. */
  lemma JsBlankRun(file: string, p: Pass)
    requires p.pos < |file| && file[p.pos] in Blank
    ensures JsFrom(file, p, true) == JsFrom(file, Pass(SkipFrom(file, p.pos, Blank), p.built, p.cache + " "), true)
  {
    JsStepBlank(file, p, true);
    JsFromStep(file, p, true);
  }

  /** One turn only ever appends to the builder. */
  lemma JsStepExtends(file: string, p: Pass, blankOnly: bool)
    requires p.pos < |file|
    ensures var m := JsStep(file, p, blankOnly); m.Next? ==> p.built <= m.pass.built
  {
    var c := file[p.pos];
    if !IsWhiteSpace(c) && !(p.pos + 1 < |file| && c == '/' && file[p.pos + 1] == '*') && (c == '\'' || c == '"') {
      JsStepQuote(file, p, blankOnly);
      var k := QuoteEnd(file, p.pos + 1, c);
      var rest := ClearJavaScriptCode(p.cache) + file[p.pos..if k < |file| then k + 1 else |file|];
      assert Flush(p) + file[p.pos..if k < |file| then k + 1 else |file|] == p.built + rest;
    }
  }

  /** What the builder holds at any point of the loop is the start of the text the pass returns. */
  lemma {:induction false} JsFromExtends(file: string, p: Pass, blankOnly: bool)
    ensures JsFrom(file, p, blankOnly).Done? ==> p.built <= JsFrom(file, p, blankOnly).text
    decreases |file| - p.pos
  {
    assert p.built <= Finish(p);
    if p.pos < |file| {
      JsFromStep(file, p, blankOnly);
      var m := JsStep(file, p, blankOnly);
      if m.Next? {
        JsStepExtends(file, p, blankOnly);
        JsFromExtends(file, m.pass, blankOnly);
      }
    }
  }

  /**
   * A quoted literal is copied unchanged, from its opening quote to the
   * first unescaped quote of the same kind (or to the end of the text), right
   * after the flushed cache, and the rest of the pass only appends to it.
   */
  lemma JsQuoteKept(file: string, p: Pass, blankOnly: bool)
    requires p.pos < |file| && (file[p.pos] == '\'' || file[p.pos] == '"')
    ensures var k := QuoteEnd(file, p.pos + 1, file[p.pos]);
      var literal := file[p.pos..if k < |file| then k + 1 else |file|];
      JsFrom(file, p, blankOnly).Done? ==> Flush(p) + literal <= JsFrom(file, p, blankOnly).text
  {
    JsStepQuote(file, p, blankOnly);
    JsFromStep(file, p, blankOnly);
    JsFromExtends(file, JsStep(file, p, blankOnly).pass, blankOnly);
  }

  /** One turn adds no more to the builder and the cache than it reads. */
  lemma JsStepLength(file: string, p: Pass, blankOnly: bool)
    requires p.pos < |file| && JsStep(file, p, blankOnly).Next?
    ensures var n := JsStep(file, p, blankOnly).pass;
      |n.built| + |n.cache| <= |p.built| + |p.cache| + (if n.pos < |file| then n.pos else |file|) - p.pos
  {
    var c := file[p.pos];
    if !IsWhiteSpace(c) && !(p.pos + 1 < |file| && c == '/' && file[p.pos + 1] == '*') && (c == '\'' || c == '"') {
      JsStepQuote(file, p, blankOnly);
      ClearJavaScriptCodeUnspaced(p.cache);
    }
  }

  /** Once the loop is over, the cache is flushed into no more characters than it holds. */
  lemma FinishLength(p: Pass)
    ensures |Finish(p)| <= |p.built| + |p.cache|
  {
    ClearJavaScriptCodeUnspaced(p.cache);
  }

  /** From any point the pass adds no more characters than are left to read. */
  lemma {:induction false} JsFromLength(file: string, p: Pass, blankOnly: bool)
    requires p.pos <= |file|
    ensures JsFrom(file, p, blankOnly).Done? ==> |JsFrom(file, p, blankOnly).text| <= |p.built| + |p.cache| + |file| - p.pos
    decreases |file| - p.pos
  {
    FinishLength(p);
    if p.pos < |file| {
      JsFromStep(file, p, blankOnly);
      var m := JsStep(file, p, blankOnly);
      if m.Next? {
        JsStepLength(file, p, blankOnly);
        if m.pass.pos <= |file| {
          JsFromLength(file, m.pass, blankOnly);
        } else {
          FinishLength(m.pass);
        }
      }
    }
  }

  /** The minified script is never longer than the joined rows. */
  lemma JsNeverLonger(file: string)
    ensures Js(file).Done? ==> |Js(file).text| <= |Prepared(file)|
    ensures JsCorrected(file).Done? ==> |JsCorrected(file).text| <= |Prepared(file)|
  {
    JsFromLength(Prepared(file), Pass(0, [], []), true);
    JsFromLength(Prepared(file), Pass(0, [], []), false);
  }

  /** As written, the loop never ends once it reaches white space other than the four blanks. */
  lemma JsStuckOnOtherWhiteSpace(file: string, p: Pass)
    requires p.pos < |file| && IsWhiteSpace(file[p.pos]) && file[p.pos] !in Blank
    ensures JsFrom(file, p, true) == Diverges
  {
    assert SkipFrom(file, p.pos, Blank) == p.pos;
    JsFromStep(file, p, true);
  }

  /** As written, "a", a no-break space and "b" make Minifier.JavaScript loop for ever; the corrected pass ends. */
  lemma JsDivergesOnNoBreakSpace(file: string)
    requires |file| == 3 && file[0] == 'a' && file[1] == '\U{00A0}' && file[2] == 'b'
    ensures Js(file) == Diverges
    ensures JsCorrected(file).Done?
  {
    assert file[..2] != "//" by {
      assert file[..2][0] == 'a';
    }
    PreparedSingleLine(file);
    LoopDivergesOnNoBreakSpace(file);
    JsCorrectedNeverDiverges(file, Pass(0, [], []));
  }

  /** The loop itself, over that text. */
  lemma LoopDivergesOnNoBreakSpace(text: string)
    requires |text| == 3 && text[0] == 'a' && text[1] == '\U{00A0}' && text[2] == 'b'
    ensures JsFrom(text, Pass(0, [], []), true) == Diverges
  {
    assert IsWhiteSpace(text[1]) && text[1] !in Blank;
    JsStuckOnOtherWhiteSpace(text, Pass(1, [], "a"));
    assert [] + [text[0]] == "a";
    JsCopies(text, Pass(0, [], []), true);
  }

  /** The corrected pass always ends: every turn moves forward. */
  lemma {:induction false} JsCorrectedNeverDiverges(file: string, p: Pass)
    ensures JsFrom(file, p, false).Done?
    decreases |file| - p.pos
  {
    if p.pos < |file| {
      JsFromStep(file, p, false);
      var m := JsStep(file, p, false);
      if m.Next? {
        JsCorrectedNeverDiverges(file, m.pass);
      }
    }
  }
}
