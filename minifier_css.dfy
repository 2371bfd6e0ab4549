/**
 * Minifier.CSS: one pass over the style sheet that drops blanks, comments and
 * the ';' before a '}', and folds the blanks inside a property value.
 *
 * The pass is a function of the position the loop resumes at and the text
 * built so far (CssFrom), and the method CSS is proved to compute it. As
 * written, the loop moves past a comment to the character after the closing
 * "*" "/" and then its own i++ skips that character too; CssFrom takes a flag
 * for this so that the corrected pass can be stated beside it.
 */
module MinifierCss {
  import opened Strings
  import opened Minifier

  // ---------------------------------------------------------------- the pass as functions

  /**
   * The loop over a property value, from i to the next ';' or '}': a run of
   * white space becomes one ' ' (none right after a ','), every other
   * character is copied.
   */
  function CssValue(file: string, i: nat, out: string): (r: Scan)
    requires 1 <= i
    ensures i <= r.pos && (i <= |file| ==> r.pos <= |file|) && (|file| < i ==> r == Scan(i, out))
    ensures r.pos < |file| ==> file[r.pos] == ';' || file[r.pos] == '}'
    ensures |r.text| <= |out| + r.pos - i
    decreases |file| - i
  {
    if i < |file| && file[i] != ';' && file[i] != '}' then
      if file[i] == ' ' || file[i] == '\t' then
        CssValue(file, SkipWhiteSpaceFrom(file, i), if file[i - 1] != ',' then out + " " else out)
      else
        CssValue(file, i + 1, out + [file[i]])
    else
      Scan(i, out)
  }

  /**
   * The switch on the character at j: what it appends and the position the
   * loop's i++ then moves from. ";" followed, after white space, by "}" gives
   * "}" alone.
   */
  function CssToken(file: string, j: nat, out: string): (r: Scan)
    requires j < |file|
    ensures j <= r.pos < |file|
    ensures |r.text| <= |out| + r.pos + 1 - j
  {
    var c := file[j];
    if c == '{' || c == '}' || c == ',' || c == '.' || c == '#' then
      Scan(SkipWhiteSpaceFrom(file, j), out + [c])
    else if c == ';' then
      var k := SkipWhiteSpaceFrom(file, j + 1);
      if k < |file| && file[k] == '}' then Scan(k, out + "}") else Scan(k - 1, out + ";")
    else if c == ':' then
      var v := CssValue(file, SkipWhiteSpaceFrom(file, j + 1), out + ":");
      Scan(v.pos - 1, v.text)
    else
      Scan(j, out + [c])
  }

  /**
   * One turn of the loop resumed at i with out built: skip blanks, drop a
   * comment, otherwise handle one token. The result is the position of the
   * next turn and the text then built, or None where the loop breaks (the end
   * of the file, or a comment that is never closed). dropNext says whether
   * the character after a comment is skipped, as written.
   */
  function CssStep(file: string, i: nat, out: string, dropNext: bool): (r: Option<Scan>)
    requires i < |file|
    ensures r.Some? ==> i < r.value.pos
  {
    var j := SkipFrom(file, i, Blank);
    if j >= |file| then None
    else if j + 2 < |file| && file[j] == '/' && file[j + 1] == '*' then
      var end := CloseFrom(file, j + 2);
      if end < 0 then None else Some(Scan(end + 2 + (if dropNext then 1 else 0), out))
    else
      var t := CssToken(file, j, out);
      Some(Scan(t.pos + 1, t.text))
  }

  /** The turn when only blanks are left. */
  lemma CssStepEnd(file: string, i: nat, out: string, dropNext: bool)
    requires i < |file| && SkipFrom(file, i, Blank) >= |file|
    ensures CssStep(file, i, out, dropNext).None?
  {
  }

  /** The turn at a comment: the pass resumes after its closing mark, or breaks when there is none. */
  lemma CssStepComment(file: string, i: nat, out: string, dropNext: bool)
    requires i < |file|
    requires var j := SkipFrom(file, i, Blank); j + 2 < |file| && file[j] == '/' && file[j + 1] == '*'
    ensures var end := CloseFrom(file, SkipFrom(file, i, Blank) + 2);
      CssStep(file, i, out, dropNext) == if end < 0 then None else Some(Scan(end + 2 + (if dropNext then 1 else 0), out))
  {
  }

  /** The turn at any other character: one token. */
  lemma CssStepToken(file: string, i: nat, out: string, dropNext: bool)
    requires i < |file|
    requires var j := SkipFrom(file, i, Blank); j < |file| && !(j + 2 < |file| && file[j] == '/' && file[j + 1] == '*')
    ensures var t := CssToken(file, SkipFrom(file, i, Blank), out); CssStep(file, i, out, dropNext) == Some(Scan(t.pos + 1, t.text))
  {
  }

  /** The loop from position i with out built, to its end: the text it returns. */
  function CssFrom(file: string, i: nat, out: string, dropNext: bool): string
    decreases |file| - i, 1
  {
    if i >= |file| then out else CssTurn(file, i, out, dropNext)
  }

  /** The loop from its turn at i on. */
  function CssTurn(file: string, i: nat, out: string, dropNext: bool): string
    requires i < |file|
    decreases |file| - i, 0
  {
    match CssStep(file, i, out, dropNext)
    case None => out
    case Some(next) => CssFrom(file, next.pos, next.text, dropNext)
  }

  /** One turn of the loop, as CssFrom takes it. */
  lemma CssFromStep(file: string, i: nat, out: string, dropNext: bool)
    requires i < |file|
    ensures var n := CssStep(file, i, out, dropNext);
      CssFrom(file, i, out, dropNext) == if n.None? then out else CssFrom(file, n.value.pos, n.value.text, dropNext)
  {
  }

  /** A turn that reads the token t: the loop goes on right after it. */
  lemma CssFromToken(file: string, i: nat, out: string, dropNext: bool, t: Scan)
    requires i < |file|
    requires var j := SkipFrom(file, i, Blank); j < |file| && !(j + 2 < |file| && file[j] == '/' && file[j + 1] == '*')
    requires CssToken(file, SkipFrom(file, i, Blank), out) == t
    ensures CssFrom(file, i, out, dropNext) == CssFrom(file, t.pos + 1, t.text, dropNext)
  {
    CssStepToken(file, i, out, dropNext);
    assert CssTurn(file, i, out, dropNext) == CssFrom(file, t.pos + 1, t.text, dropNext);
  }

  /** A turn at a comment: the loop resumes after its closing mark, or ends when there is none. */
  lemma CssFromComment(file: string, i: nat, out: string, dropNext: bool)
    requires i < |file|
    requires var j := SkipFrom(file, i, Blank); j + 2 < |file| && file[j] == '/' && file[j + 1] == '*'
    ensures var end := CloseFrom(file, SkipFrom(file, i, Blank) + 2);
      && (end < 0 ==> CssFrom(file, i, out, dropNext) == out)
      && (0 <= end ==> CssFrom(file, i, out, dropNext) == CssFrom(file, end + 2 + (if dropNext then 1 else 0), out, dropNext))
  {
    CssStepComment(file, i, out, dropNext);
    CssFromStep(file, i, out, dropNext);
  }

  /** Past the end of the file the loop has stopped. */
  lemma CssFromDone(file: string, i: nat, out: string, dropNext: bool)
    requires |file| <= i
    ensures CssFrom(file, i, out, dropNext) == out
  {
  }

  /** Minifier.CSS as written. */
  function Css(file: string): string {
    CssFrom(file, 0, [], true)
  }

  /** The pass with the loop resuming right after a comment. */
  function CssCorrected(file: string): string {
    CssFrom(file, 0, [], false)
  }

  /** One turn never adds more characters than it reads. */
  lemma CssStepLength(file: string, i: nat, out: string, dropNext: bool)
    requires i < |file| && CssStep(file, i, out, dropNext).Some?
    ensures var n := CssStep(file, i, out, dropNext).value;
      |n.text| <= |out| + n.pos - i && (n.pos <= |file| || n.text == out)
  {
  }

  /** From any point the loop adds no more characters than are left to read. */
  lemma {:induction false} CssFromLength(file: string, i: nat, out: string, dropNext: bool)
    requires i <= |file|
    ensures |CssFrom(file, i, out, dropNext)| <= |out| + |file| - i
    decreases |file| - i
  {
    if i < |file| && CssStep(file, i, out, dropNext).Some? {
      var n := CssStep(file, i, out, dropNext).value;
      CssStepLength(file, i, out, dropNext);
      CssFromStep(file, i, out, dropNext);
      if n.pos <= |file| {
        CssFromLength(file, n.pos, n.text, dropNext);
      }
    }
  }

  /** The minified style sheet is never longer than the original. */
  lemma CssNeverLonger(file: string)
    ensures |Css(file)| <= |file| && |CssCorrected(file)| <= |file|
  {
    CssFromLength(file, 0, [], true);
    CssFromLength(file, 0, [], false);
  }

  // ---------------------------------------------------------------- the method

  /** The inner while loop of the ':' case. */
  method Value(builder: StringBuilder, file: string, i0: nat) returns (i: nat)
    requires 1 <= i0
    modifies builder
    ensures Scan(i, builder.text) == CssValue(file, i0, old(builder.text))
  {
    i := i0;
    while i < |file| && file[i] != ';' && file[i] != '}'
      invariant i0 <= i
      invariant CssValue(file, i, builder.text) == CssValue(file, i0, old(builder.text))
      decreases |file| - i
    {
      if file[i] == ' ' || file[i] == '\t' {
        if file[i - 1] != ',' {
          builder.Append(" ");
        }
        i := SkipWhiteSpace(file, i);
      } else {
        builder.Append([file[i]]);
        i := i + 1;
      }
    }
  }

  /** The switch of the loop body; the result is i before the loop's i++. */
  method Token(builder: StringBuilder, file: string, j: nat) returns (i: nat)
    requires j < |file|
    modifies builder
    ensures Scan(i, builder.text) == CssToken(file, j, old(builder.text))
  {
    var c := file[j];
    if c == '{' || c == '}' || c == ',' || c == '.' || c == '#' {
      builder.Append([c]);
      i := SkipWhiteSpace(file, j);
    } else if c == ';' {
      i := SkipWhiteSpace(file, j + 1);
      if i < |file| && file[i] == '}' {
        builder.Append("}");
      } else {
        builder.Append(";");
        i := i - 1;
      }
    } else if c == ':' {
      builder.Append(":");
      i := SkipWhiteSpace(file, j + 1);
      i := Value(builder, file, i);
      i := i - 1;
    } else {
      builder.Append([c]);
      i := j;
    }
  }

  /** Minifier.CSS. */
  method CSS(file: string) returns (r: string)
    ensures r == Css(file)
  {
    var builder := new StringBuilder();
    var i := 0;
    while i < |file|
      invariant CssFrom(file, i, builder.text, true) == Css(file)
      decreases |file| - i
    {
      CssFromStep(file, i, builder.text, true);
      var stop;
      i, stop := Turn(builder, file, i);
      if stop {
        break;
      }
    }
    r := builder.text;
  }

  /** The body of the for loop, from the Skip to the loop's i++; stop where it breaks. */
  method Turn(builder: StringBuilder, file: string, i0: nat) returns (i: nat, stop: bool)
    requires i0 < |file|
    modifies builder
    ensures stop ==> CssStep(file, i0, old(builder.text), true).None? && builder.text == old(builder.text)
    ensures !stop ==> CssStep(file, i0, old(builder.text), true) == Some(Scan(i, builder.text))
  {
    var j := Skip(file, i0, Blank);
    if j >= |file| {
      CssStepEnd(file, i0, builder.text, true);
      return j, true;
    }
    if j + 2 < |file| && file[j] == '/' && file[j + 1] == '*' {
      var end := IndexOfClose(file, j + 2);
      CssStepComment(file, i0, builder.text, true);
      if end < 0 {
        return j, true;
      }
      return end + 3, false;
    }
    CssStepToken(file, i0, builder.text, true);
    var k := Token(builder, file, j);
    return k + 1, false;
  }

  // ---------------------------------------------------------------- properties

  /** What the pass has built is only ever extended. */
  lemma {:induction false} CssValueAppends(file: string, i: nat, a: string, b: string)
    requires 1 <= i
    ensures CssValue(file, i, a + b) == var v := CssValue(file, i, b); Scan(v.pos, a + v.text)
    decreases |file| - i
  {
    if i < |file| && file[i] != ';' && file[i] != '}' {
      if file[i] == ' ' || file[i] == '\t' {
        var b' := if file[i - 1] != ',' then b + " " else b;
        assert (if file[i - 1] != ',' then a + b + " " else a + b) == a + b';
        CssValueAppends(file, SkipWhiteSpaceFrom(file, i), a, b');
      } else {
        assert a + b + [file[i]] == a + (b + [file[i]]);
        CssValueAppends(file, i + 1, a, b + [file[i]]);
      }
    }
  }

  lemma CssTokenAppends(file: string, j: nat, a: string, b: string)
    requires j < |file|
    ensures CssToken(file, j, a + b) == var t := CssToken(file, j, b); Scan(t.pos, a + t.text)
  {
    var c := file[j];
    if c == ':' {
      assert a + b + ":" == a + (b + ":");
      CssValueAppends(file, SkipWhiteSpaceFrom(file, j + 1), a, b + ":");
    } else {
      assert a + b + [c] == a + (b + [c]);
      assert a + b + "}" == a + (b + "}");
      assert a + b + ";" == a + (b + ";");
    }
  }

  lemma CssStepAppends(file: string, i: nat, a: string, b: string, dropNext: bool)
    requires i < |file|
    ensures CssStep(file, i, a + b, dropNext)
      == var n := CssStep(file, i, b, dropNext); if n.None? then None else Some(Scan(n.value.pos, a + n.value.text))
  {
    var j := SkipFrom(file, i, Blank);
    if j < |file| && !(j + 2 < |file| && file[j] == '/' && file[j + 1] == '*') {
      CssTokenAppends(file, j, a, b);
    }
  }

  lemma {:induction false} CssFromAppends(file: string, i: nat, a: string, b: string, dropNext: bool)
    ensures CssFrom(file, i, a + b, dropNext) == a + CssFrom(file, i, b, dropNext)
    decreases |file| - i
  {
    if i < |file| {
      CssStepAppends(file, i, a, b, dropNext);
      CssFromStep(file, i, a + b, dropNext);
      CssFromStep(file, i, b, dropNext);
      var n := CssStep(file, i, b, dropNext);
      if n.Some? {
        CssFromAppends(file, n.value.pos, a, n.value.text, dropNext);
      }
    }
  }

  /**
   * At a comment closed at end, as written the pass goes on at end + 3, one
   * character past the closing mark, having appended nothing; the corrected
   * pass goes on right after the mark.
   */
  lemma CssCommentResumes(file: string, i: nat, out: string)
    requires i < |file|
    requires var j := SkipFrom(file, i, Blank);
      j + 2 < |file| && file[j] == '/' && file[j + 1] == '*' && CloseFrom(file, j + 2) >= 0
    ensures var end := CloseFrom(file, SkipFrom(file, i, Blank) + 2);
      && CssFrom(file, i, out, true) == CssFrom(file, end + 3, out, true)
      && CssFrom(file, i, out, false) == CssFrom(file, end + 2, out, false)
  {
    CssFromComment(file, i, out, true);
    CssFromComment(file, i, out, false);
  }

  /**
   * As written, the character right after a comment is lost: an empty
   * comment followed by "a{}" is minified to "{}".
   */
  lemma CssDropsCharAfterComment(f: string)
    requires |f| == 7 && f[0] == '/' && f[1] == '*' && f[2] == '*' && f[3] == '/'
    requires f[4] == 'a' && f[5] == '{' && f[6] == '}'
    ensures Css(f) == "{}"
  {
    EmptyCommentFirst(f);
    CssCommentResumes(f, 0, []);
    BracesCopied(f, [], true);
  }

  /** The pass copies a closing "{}" at the end of the markup. */
  lemma BracesCopied(f: string, out: string, dropNext: bool)
    requires |f| >= 2 && f[|f| - 2] == '{' && f[|f| - 1] == '}'
    ensures CssFrom(f, |f| - 2, out, dropNext) == out + "{}"
  {
    CssCopies(f, |f| - 1, out + "{", dropNext);
    CssFromDone(f, |f|, out + "{}", dropNext);
    CssCopies(f, |f| - 2, out, dropNext);
  }

  /** The markup opens with an empty comment: no blanks before it, and its close starts at 2. */
  lemma EmptyCommentFirst(f: string)
    requires |f| >= 4 && f[0] == '/' && f[1] == '*' && f[2] == '*' && f[3] == '/'
    ensures SkipFrom(f, 0, Blank) == 0 && CloseFrom(f, 2) == 2
  {
  }

  /** Resuming right after the comment keeps the "a": an empty comment followed by "a{}" is minified to "a{}". */
  lemma CssCorrectedKeepsCharAfterComment(f: string)
    requires |f| == 7 && f[0] == '/' && f[1] == '*' && f[2] == '*' && f[3] == '/'
    requires f[4] == 'a' && f[5] == '{' && f[6] == '}'
    ensures CssCorrected(f) == "a{}"
  {
    EmptyCommentFirst(f);
    CssCommentResumes(f, 0, []);
    RuleCopied(f, false);
  }

  /** The pass copies a final "a{}" whole. */
  lemma RuleCopied(f: string, dropNext: bool)
    requires |f| >= 3 && f[|f| - 3] == 'a' && f[|f| - 2] == '{' && f[|f| - 1] == '}'
    ensures CssFrom(f, |f| - 3, [], dropNext) == "a{}"
  {
    BracesCopied(f, "a", dropNext);
    assert [] + [f[|f| - 3]] == "a";
    CssCopies(f, |f| - 3, [], dropNext);
  }

  /**
   * Where the loop resumes at a character that is not a blank, ';', ':' or
   * the start of a comment, that character is copied and the pass goes on
   * right after it.
   */
  lemma CssCopies(file: string, i: nat, out: string, dropNext: bool)
    requires i < |file| && file[i] !in Blank && file[i] != ';' && file[i] != ':'
    requires !(i + 2 < |file| && file[i] == '/' && file[i + 1] == '*')
    ensures CssFrom(file, i, out, dropNext) == CssFrom(file, i + 1, out + [file[i]], dropNext)
  {
    assert SkipFrom(file, i, Blank) == i;
    CopiedToken(file, i, out);
    CssFromToken(file, i, out, dropNext, Scan(i, out + [file[i]]));
  }

  /** The token read at a character other than ';' and ':' is that character alone. */
  lemma CopiedToken(file: string, i: nat, out: string)
    requires i < |file| && file[i] != ';' && file[i] != ':'
    ensures CssToken(file, i, out) == Scan(i, out + [file[i]])
  {
    var c := file[i];
    if c == '{' || c == '}' || c == ',' || c == '.' || c == '#' {
      assert !IsWhiteSpace(c);
      assert SkipWhiteSpaceFrom(file, i) == i;
    }
  }

  /** From any point of the loop, a comment that is never closed ends the pass: nothing more is appended. */
  lemma CssUnterminatedComment(file: string, i: nat, out: string, dropNext: bool)
    requires i < |file|
    requires var j := SkipFrom(file, i, Blank);
      j + 2 < |file| && file[j] == '/' && file[j + 1] == '*' && CloseFrom(file, j + 2) == -1
    ensures CssFrom(file, i, out, dropNext) == out
  {
    CssFromComment(file, i, out, dropNext);
  }

  /** ";" then white space then "}" is written as "}" alone, and the pass goes on after the "}". */
  lemma CssSemicolonBeforeBrace(file: string, i: nat, k: nat, out: string, dropNext: bool)
    requires i < |file|
    requires var j := SkipFrom(file, i, Blank);
      && j < k < |file| && file[j] == ';' && file[k] == '}'
      && forall m :: j < m < k ==> IsWhiteSpace(file[m])
    ensures CssFrom(file, i, out, dropNext) == CssFrom(file, k + 1, out + "}", dropNext)
  {
    SemicolonBeforeBrace(file, SkipFrom(file, i, Blank), k, out);
    CssFromToken(file, i, out, dropNext, Scan(k, out + "}"));
  }

  /** The token read at a ";" followed, after white space, by "}". */
  lemma SemicolonBeforeBrace(file: string, j: nat, k: nat, out: string)
    requires j < k < |file| && file[j] == ';' && file[k] == '}'
    requires forall m :: j < m < k ==> IsWhiteSpace(file[m])
    ensures CssToken(file, j, out) == Scan(k, out + "}")
  {
    assert SkipWhiteSpaceFrom(file, j + 1) == k;
  }

  /**
   * A ";" followed, after white space, by anything but "}" is kept, and the
   * pass goes on at that character; at the end of the file the ";" is the
   * last character written.
   */
  lemma CssSemicolonKept(file: string, i: nat, k: nat, out: string, dropNext: bool)
    requires i < |file|
    requires var j := SkipFrom(file, i, Blank);
      && j < k <= |file| && file[j] == ';'
      && (forall m :: j < m < k ==> IsWhiteSpace(file[m]))
      && (k < |file| ==> !IsWhiteSpace(file[k]) && file[k] != '}')
    ensures CssFrom(file, i, out, dropNext) == CssFrom(file, k, out + ";", dropNext)
    ensures k == |file| ==> CssFrom(file, i, out, dropNext) == out + ";"
  {
    var j := SkipFrom(file, i, Blank);
    assert SkipWhiteSpaceFrom(file, j + 1) == k;
    CssFromToken(file, i, out, dropNext, Scan(k - 1, out + ";"));
    if k == |file| {
      CssFromDone(file, k, out + ";", dropNext);
    }
  }
}
