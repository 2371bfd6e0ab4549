/**
 * Minifier.HTML: one pass over the markup that drops the blanks between
 * elements and comments, rewrites each tag as '<', its name and its
 * attributes separated by single spaces, and folds the white space of the
 * text between tags.
 *
 * The pass is a function of the position the loop resumes at and the text
 * built so far (HtmlFrom), and the method HTML is proved to compute it. The
 * pass reads past the end of the markup on several paths, which the source
 * answers with an IndexOutOfRangeException: these give OutOfRange. An
 * unquoted attribute value written right after its '=' sends the attribute
 * loop back onto the '=' for ever: this gives Diverges. As written, the loop
 * also skips the character right after a comment; HtmlFrom takes a flag for
 * this so that the corrected pass can be stated beside it.
 */
module MinifierHtml {
  import opened Strings
  import opened Minifier

  // ---------------------------------------------------------------- the pass as functions

  /** The limit of AppendNextWord inside a tag. */
  const TagLimit: set<char> := {'>', '='}

  /** What a stretch of the loop does: go on from a new point, break, throw, or never end. */
  datatype Turn = Go(next: Scan) | Stop | Thrown | Loops

  /** AppendNextWord(builder, file, ref i, '>', '=') from i with out built. */
  function NextWord(file: string, i: nat, out: string): (r: Scan)
    requires i <= |file|
    ensures i <= r.pos <= |file|
    ensures var k := SkipWhiteSpaceFrom(file, i); k <= r.pos && r.text == out + file[k..r.pos]
    ensures r.pos < |file| ==> IsWhiteSpace(file[r.pos]) || file[r.pos] in TagLimit
  {
    var k := SkipWhiteSpaceFrom(file, i);
    var w := WordEnd(file, k, TagLimit);
    Scan(w, out + file[k..w])
  }

  /** The characters that end a tag's name. */
  predicate EndsName(c: char) {
    c == ' ' || c == '\t' || c == '>'
  }

  /**
   * The while loop over the text between tags, from i with out built: a run
   * of ' ' and '\t' (with any white space after it) becomes one ' ', a '\n'
   * (with the blanks after it) becomes one ' ', a '\r' is dropped and any
   * other character is copied, up to the next '<' or the end.
   */
  function TextRun(file: string, i: nat, out: string): (r: Scan)
    ensures i <= r.pos && (i <= |file| ==> r.pos <= |file|) && (|file| <= i ==> r == Scan(i, out))
    ensures r.pos < |file| ==> file[r.pos] == '<'
    ensures i < |file| && file[i] != '<' ==> i < r.pos
    ensures out <= r.text
    decreases |file| - i
  {
    if i < |file| && file[i] != '<' then
      var c := file[i];
      if c == '\t' || c == ' ' then TextRun(file, SkipWhiteSpaceFrom(file, i), out + " ")
      else if c == '\r' then TextRun(file, i + 1, out)
      else if c == '\n' then TextRun(file, SkipFrom(file, i + 1, Blank), out + " ")
      else TextRun(file, i + 1, out + [c])
    else
      Scan(i, out)
  }

  /**
   * One turn of the while loop over the attributes of a tag, at h: the
   * attribute's name, then '=' and its value when there is one. Go with the
   * point the next turn starts from (a '>' there ends the loop), Thrown
   * exactly when the text runs out after the name or after its '=' (the
   * source then indexes past the end), Loops where the turn ends where it
   * began. written selects the source's reading of an unquoted value.
   */
  function AttrStep(file: string, h: nat, out: string, written: bool): (r: Turn)
    requires h < |file| && file[h] != '>'
    ensures r.Go? ==> h < r.next.pos && out <= r.next.text
    ensures !r.Stop? && (!written ==> !r.Loops?)
    ensures var s := SkipWhiteSpaceFrom(file, NextWord(file, h, out + " ").pos);
      r.Thrown? <==> s == |file| || (file[s] == '=' && SkipWhiteSpaceFrom(file, s + 1) == |file|)
  {
    var word := NextWord(file, h, out + " ");
    var s := SkipWhiteSpaceFrom(file, word.pos);
    if s >= |file| then Thrown
    else if file[s] != '=' then Go(Scan(s, word.text))
    else AttrValue(file, h, s, word.text, written)
  }

  /**
   * The rest of the turn at h when an '=' follows the name, at s: the value
   * is a quoted string copied with its quotes, or else the next word. As
   * written, that word is read from one character before the value, which
   * is the '=' itself when the value follows it directly.
   */
  function AttrValue(file: string, h: nat, s: nat, out: string, written: bool): (r: Turn)
    requires h <= s < |file| && file[s] == '='
    ensures r.Go? ==> h < r.next.pos && out <= r.next.text
    ensures !r.Stop? && (!written ==> !r.Loops?)
    ensures r.Thrown? <==> SkipWhiteSpaceFrom(file, s + 1) == |file|
  {
    var t := SkipWhiteSpaceFrom(file, s + 1);
    if t >= |file| then Thrown
    else if file[t] != '\'' && file[t] != '"' then UnquotedValue(file, h, if written then t - 1 else t, out + "=")
    else Go(QuotedValue(file, t, out + "="))
  }

  /** An unquoted value: the next word from start, then the white space after it; Loops when that is where the turn began. */
  function UnquotedValue(file: string, h: nat, start: nat, out: string): (r: Turn)
    requires start <= |file|
    ensures r.Go? ==> start <= r.next.pos && out <= r.next.text
    ensures r.Loops? || r.Go?
    ensures var word := NextWord(file, start, out);
      var next := SkipWhiteSpaceFrom(file, word.pos);
      && (r.Loops? <==> next == h)
      && (r.Go? ==> r.next == Scan(next, word.text))
  {
    var value := NextWord(file, start, out);
    var next := SkipWhiteSpaceFrom(file, value.pos);
    if next == h then Loops else Go(Scan(next, value.text))
  }

  /**
   * A value quoted by the character at t: the text up to the next same quote
   * (or the end) copied between two quotes, then the white space after it.
   */
  function QuotedValue(file: string, t: nat, out: string): (r: Scan)
    requires t < |file|
    ensures t < r.pos
    ensures out + [file[t]] <= r.text && r.text[|r.text| - 1] == file[t]
    ensures |out| + 2 <= |r.text|
    ensures var v := r.text[|out| + 1..|r.text| - 1];
      && r.text == out + [file[t]] + v + [file[t]]
      && t + 1 + |v| <= |file| && v == file[t + 1..t + 1 + |v|]
      && file[t] !in v
      && (t + 1 + |v| < |file| ==> file[t + 1 + |v|] == file[t])
      && r.pos == SkipWhiteSpaceFrom(file, t + 2 + |v|)
  {
    var u := UntilEnd(file, t + 1, Is(file[t]));
    Scan(SkipWhiteSpaceFrom(file, u + 1), out + [file[t]] + file[t + 1..u] + [file[t]])
  }

  /** The while loop over the attributes of a tag, from h with out built: Go at the '>' that closes the tag (or the end). */
  function Attrs(file: string, h: nat, out: string, written: bool): (r: Turn)
    ensures r.Go? ==> h <= r.next.pos && out <= r.next.text
    ensures r.Go? ==> r.next.pos >= |file| || file[r.next.pos] == '>'
    ensures !r.Stop? && (!written ==> !r.Loops?)
    decreases |file| - h
  {
    if h >= |file| || file[h] == '>' then Go(Scan(h, out))
    else
      var m := AttrStep(file, h, out, written);
      if m.Go? then Attrs(file, m.next.pos, m.next.text, written) else m
  }

  /** A tag whose name starts after the white space at k: '<', the name, the attributes and '>'; the loop goes on after the '>'. */
  function Element(file: string, k: nat, out: string, written: bool): (r: Turn)
    requires k <= |file|
    ensures r.Go? ==> k < r.next.pos && out + "<" <= r.next.text && r.next.text[|r.next.text| - 1] == '>'
    ensures !r.Stop? && (!written ==> !r.Loops?)
  {
    var n := SkipWhiteSpaceFrom(file, k);
    var e := UntilEnd(file, n, EndsName);
    Closed(Attrs(file, SkipWhiteSpaceFrom(file, e), out + "<" + file[n..e], written))
  }

  /** After the attribute loop: '>' is appended and the loop goes on after it. */
  function Closed(a: Turn): (r: Turn)
    ensures r.Go? <==> a.Go?
    ensures r.Go? ==> r.next.pos == a.next.pos + 1 && r.next.text == a.next.text + ">"
  {
    if a.Go? then Go(Scan(a.next.pos + 1, a.next.text + ">")) else a
  }

  /** The comment test after a '<' at k - 1: "!--" not followed by '['. */
  predicate OpensComment(file: string, k: nat) {
    k + 4 < |file| && file[k] == '!' && file[k + 1] == '-' && file[k + 2] == '-' && file[k + 3] != '['
  }

  /** The mark "-->" that closes a comment starts at m. */
  predicate ClosesCommentAt(s: string, m: int) {
    0 <= m && m + 2 < |s| && s[m] == '-' && s[m + 1] == '-' && s[m + 2] == '>'
  }

  /** The first position at or after k where "-->" starts; -1 when there is none. */
  function CommentCloseFrom(s: string, k: nat): (r: int)
    ensures r == -1 || (k <= r && ClosesCommentAt(s, r))
    ensures forall m :: k <= m && (r == -1 || m < r) ==> !ClosesCommentAt(s, m)
    decreases |s| - k
  {
    if k + 3 > |s| then -1
    else if s[k] == '-' && s[k + 1] == '-' && s[k + 2] == '>' then k
    else CommentCloseFrom(s, k + 1)
  }

  /** CommentCloseFrom is file.IndexOf("-->", k): the search for the three-character string. */
  lemma {:induction false} CommentCloseIsIndexOf(s: string, k: nat)
    requires k <= |s|
    ensures CommentCloseFrom(s, k) == IndexOfFrom(s, "-->", k)
    decreases |s| - k
  {
    if k + 3 <= |s| {
      assert s[k..k + 3] == "-->" <==> s[k] == '-' && s[k + 1] == '-' && s[k + 2] == '>' by {
        if s[k] == '-' && s[k + 1] == '-' && s[k + 2] == '>' {
          assert s[k..k + 3] == [s[k], s[k + 1], s[k + 2]];
        }
      }
      if !(s[k] == '-' && s[k + 1] == '-' && s[k + 2] == '>') {
        CommentCloseIsIndexOf(s, k + 1);
      }
    }
  }

  /** file.IndexOf("-->", k), the call the pass makes to find where a comment closes. */
  method IndexOfCommentClose(s: string, k: nat) returns (end: int)
    requires k <= |s|
    ensures end == CommentCloseFrom(s, k)
  {
    end := IndexOfFrom(s, "-->", k);
    CommentCloseIsIndexOf(s, k);
  }

  /**
   * A comment opened at k - 1: the loop resumes after its "-->" (and, as
   * written, one character further), or breaks when there is none.
   */
  function AfterComment(file: string, k: nat, out: string, written: bool): (r: Turn)
    requires k + 2 <= |file|
    ensures r.Go? ==> k < r.next.pos && r.next.text == out
    ensures r.Go? || r.Stop?
  {
    var end := CommentCloseFrom(file, k + 2);
    if end < 0 then Stop else Go(Scan(end + 3 + (if written then 1 else 0), out))
  }

  /**
   * One turn of the for loop at i: skip blanks, then a comment, a tag or a
   * text run. written selects the source as written; the corrected turn
   * ends the loop where only blanks are left, resumes right after a
   * comment, and reads an unquoted attribute value from where it starts.
   */
  function HtmlStep(file: string, i: nat, out: string, written: bool): (r: Turn)
    requires i < |file|
    ensures r.Go? ==> i < r.next.pos && out <= r.next.text
    ensures !written ==> !r.Loops?
  {
    var j := SkipFrom(file, i, Blank);
    if j >= |file| then (if written then Thrown else Stop)
    else if file[j] == '<' then
      if OpensComment(file, j + 1) then AfterComment(file, j + 1, out, written)
      else
        Element(file, j + 1, out, written)
    else
      Go(TextRun(file, j, out))
  }

  /** The loop from position i with out built, to its end. */
  function HtmlFrom(file: string, i: nat, out: string, written: bool): Outcome
    decreases |file| - i, 1
  {
    if i >= |file| then Done(out) else HtmlTurn(file, i, out, written)
  }

  /** The loop from its turn at i on. */
  function HtmlTurn(file: string, i: nat, out: string, written: bool): Outcome
    requires i < |file|
    decreases |file| - i, 0
  {
    var m := HtmlStep(file, i, out, written);
    if m.Go? then HtmlFrom(file, m.next.pos, m.next.text, written)
    else if m.Stop? then Done(out)
    else if m.Thrown? then OutOfRange
    else Diverges
  }

  /** One turn of the loop, as HtmlFrom takes it. */
  lemma HtmlFromStep(file: string, i: nat, out: string, written: bool)
    requires i < |file|
    ensures var m := HtmlStep(file, i, out, written);
      HtmlFrom(file, i, out, written)
      == if m.Go? then HtmlFrom(file, m.next.pos, m.next.text, written)
         else if m.Stop? then Done(out) else if m.Thrown? then OutOfRange else Diverges
  {
  }

  /** Past the end of the markup the loop has stopped. */
  lemma HtmlFromDone(file: string, i: nat, out: string, written: bool)
    requires |file| <= i
    ensures HtmlFrom(file, i, out, written) == Done(out)
  {
  }

  /** Minifier.HTML as written. */
  function Html(file: string): Outcome {
    HtmlFrom(file, 0, [], true)
  }

  /** The pass as evidently intended: see HtmlStep. */
  function HtmlCorrected(file: string): Outcome {
    HtmlFrom(file, 0, [], false)
  }

  // ---------------------------------------------------------------- one turn, case by case

  /** Only blanks are left: as written the source reads file[i] at the end; corrected, the loop ends. */
  lemma HtmlStepEnd(file: string, i: nat, out: string, written: bool)
    requires i < |file| && SkipFrom(file, i, Blank) >= |file|
    ensures HtmlStep(file, i, out, written) == if written then Thrown else Stop
  {
  }

  /** A comment: the pass resumes after its "-->", or breaks when there is none. */
  lemma HtmlStepComment(file: string, i: nat, out: string, written: bool)
    requires i < |file|
    requires var j := SkipFrom(file, i, Blank); j < |file| && file[j] == '<' && OpensComment(file, j + 1)
    ensures HtmlStep(file, i, out, written) == AfterComment(file, SkipFrom(file, i, Blank) + 1, out, written)
  {
    var j := SkipFrom(file, i, Blank);
    assert j < |file| && file[j] == '<' && OpensComment(file, j + 1);
  }

  /** A tag. */
  lemma HtmlStepElement(file: string, i: nat, out: string, written: bool)
    requires i < |file|
    requires var j := SkipFrom(file, i, Blank); j < |file| && file[j] == '<' && !OpensComment(file, j + 1)
    ensures HtmlStep(file, i, out, written) == Element(file, SkipFrom(file, i, Blank) + 1, out, written)
  {
    var j := SkipFrom(file, i, Blank);
    assert j < |file| && file[j] == '<' && !OpensComment(file, j + 1);
  }

  /** Text. */
  lemma HtmlStepText(file: string, i: nat, out: string, written: bool)
    requires i < |file|
    requires var j := SkipFrom(file, i, Blank); j < |file| && file[j] != '<'
    ensures HtmlStep(file, i, out, written) == Go(TextRun(file, SkipFrom(file, i, Blank), out))
  {
  }

  // ---------------------------------------------------------------- properties

  /** What the loop has built is never taken back. */
  lemma {:induction false} HtmlFromExtends(file: string, i: nat, out: string, written: bool)
    ensures var r := HtmlFrom(file, i, out, written); r.Done? ==> out <= r.text
    decreases |file| - i
  {
    if i < |file| {
      var m := HtmlStep(file, i, out, written);
      if m.Go? {
        HtmlFromExtends(file, m.next.pos, m.next.text, written);
      }
    }
  }

  /** A character that a text run never emits. */
  predicate Folded(c: char) {
    c == '<' || c == '\t' || c == '\r' || c == '\n'
  }

  /** The text between tags loses its '<', tabs, carriage returns and line feeds: what a run adds holds none of them. */
  lemma {:induction false} TextRunFolds(file: string, i: nat, out: string)
    ensures var r := TextRun(file, i, out); forall m :: |out| <= m < |r.text| ==> !Folded(r.text[m])
    decreases |file| - i
  {
    if i < |file| && file[i] != '<' {
      var c := file[i];
      var r := TextRun(file, i, out);
      if c == '\t' || c == ' ' {
        var k := SkipWhiteSpaceFrom(file, i);
        assert r == TextRun(file, k, out + " ");
        TextRunFolds(file, k, out + " ");
        assert r.text[|out|] == r.text[..|out| + 1][|out|] == ' ';
        assert forall m :: |out| <= m < |r.text| ==> !Folded(r.text[m]);
      } else if c == '\r' {
        assert r == TextRun(file, i + 1, out);
        TextRunFolds(file, i + 1, out);
        assert forall m :: |out| <= m < |r.text| ==> !Folded(r.text[m]);
      } else if c == '\n' {
        var k := SkipFrom(file, i + 1, Blank);
        assert r == TextRun(file, k, out + " ");
        TextRunFolds(file, k, out + " ");
        assert r.text[|out|] == r.text[..|out| + 1][|out|] == ' ';
        assert forall m :: |out| <= m < |r.text| ==> !Folded(r.text[m]);
      } else {
        assert r == TextRun(file, i + 1, out + [c]);
        TextRunFolds(file, i + 1, out + [c]);
        assert r.text[|out|] == r.text[..|out| + 1][|out|] == c;
        assert forall m :: |out| <= m < |r.text| ==> !Folded(r.text[m]);
      }
    }
  }

  /** A comment: as written the loop resumes one character after its "-->", corrected right after it; without "-->" the loop ends. */
  lemma HtmlCommentResumes(file: string, i: nat, out: string, written: bool)
    requires i < |file|
    requires var j := SkipFrom(file, i, Blank); j < |file| && file[j] == '<' && OpensComment(file, j + 1)
    ensures var end := CommentCloseFrom(file, SkipFrom(file, i, Blank) + 3);
      && (end < 0 ==> HtmlFrom(file, i, out, written) == Done(out))
      && (0 <= end ==> HtmlFrom(file, i, out, written) == HtmlFrom(file, end + 3 + (if written then 1 else 0), out, written))
  {
    HtmlStepComment(file, i, out, written);
    assert HtmlFrom(file, i, out, written) == HtmlTurn(file, i, out, written);
  }

  /** Only blanks left after the last tag: as written the pass throws, corrected it ends with what it has built. */
  lemma HtmlTrailingBlanks(file: string, i: nat, out: string)
    requires i < |file| && SkipFrom(file, i, Blank) >= |file|
    ensures HtmlFrom(file, i, out, true) == OutOfRange
    ensures HtmlFrom(file, i, out, false) == Done(out)
  {
    HtmlStepEnd(file, i, out, true);
    HtmlStepEnd(file, i, out, false);
    HtmlFromStep(file, i, out, true);
    HtmlFromStep(file, i, out, false);
  }

  /** An unquoted value right after its '=': as written, the turn that starts at the '=' ends there again. */
  lemma BareValueLoops(file: string, h: nat, out: string)
    requires h + 1 < |file| && file[h] == '=' && !IsWhiteSpace(file[h + 1])
    requires file[h + 1] != '\'' && file[h + 1] != '"'
    ensures Attrs(file, h, out, true) == Loops
  {
    assert WordEnd(file, h, TagLimit) == h;
    assert NextWord(file, h, out + " ").pos == h;
    assert SkipWhiteSpaceFrom(file, h + 1) == h + 1;
    assert AttrStep(file, h, out, true) == Loops;
  }

  /** The corrected pass always ends: none of its turns runs for ever. */
  lemma {:induction false} HtmlCorrectedEnds(file: string, i: nat, out: string)
    ensures HtmlFrom(file, i, out, false) != Diverges
    decreases |file| - i
  {
    if i < |file| {
      var m := HtmlStep(file, i, out, false);
      if m.Go? {
        HtmlCorrectedEnds(file, m.next.pos, m.next.text);
      }
    }
  }

  // ---------------------------------------------------------------- three inputs

  /** A text run of one character other than '<' and white space. */
  lemma TextOne(file: string, i: nat, out: string)
    requires i + 1 == |file| && file[i] != '<' && !IsWhiteSpace(file[i])
    ensures TextRun(file, i, out) == Scan(i + 1, out + [file[i]])
  {
  }

  /** "<!---->ab": as written the 'a' after the comment is lost. */
  lemma HtmlDropsCharAfterComment(f: string)
    requires |f| == 9 && f[0] == '<' && f[1] == '!' && f[2] == '-' && f[3] == '-' && f[4] == '-' && f[5] == '-' && f[6] == '>'
    requires f[7] == 'a' && f[8] == 'b'
    ensures Html(f) == Done("b")
  {
    CommentAt4(f);
    HtmlCommentResumes(f, 0, [], true);
    assert HtmlFrom(f, 8, [], true) == Done("b") by {
      TextOne(f, 8, []);
      HtmlStepText(f, 8, [], true);
      HtmlFromStep(f, 8, [], true);
      HtmlFromDone(f, 9, [f[8]], true);
    }
  }

  /** "<!---->ab": corrected, the text after the comment is kept whole. */
  lemma HtmlCorrectedKeepsCharAfterComment(f: string)
    requires |f| == 9 && f[0] == '<' && f[1] == '!' && f[2] == '-' && f[3] == '-' && f[4] == '-' && f[5] == '-' && f[6] == '>'
    requires f[7] == 'a' && f[8] == 'b'
    ensures HtmlCorrected(f) == Done("ab")
  {
    CommentAt4(f);
    HtmlCommentResumes(f, 0, [], false);
    assert HtmlFrom(f, 7, [], false) == Done("ab") by {
      TextOne(f, 8, [f[7]]);
      assert TextRun(f, 7, []) == TextRun(f, 8, [f[7]]);
      HtmlStepText(f, 7, [], false);
      HtmlFromStep(f, 7, [], false);
      HtmlFromDone(f, 9, [f[7], f[8]], false);
    }
  }

  /** The comment of "<!---->ab" opens at 0 and its "-->" is at 4. */
  lemma CommentAt4(f: string)
    requires |f| == 9 && f[0] == '<' && f[1] == '!' && f[2] == '-' && f[3] == '-' && f[4] == '-' && f[5] == '-' && f[6] == '>'
    ensures SkipFrom(f, 0, Blank) == 0 && OpensComment(f, 1) && CommentCloseFrom(f, 3) == 4
  {
  }

  /** "<p>" then a line feed: as written the pass throws on the final line feed, corrected it ends. */
  lemma HtmlThrowsOnFinalNewline(f: string)
    requires |f| == 4 && f[0] == '<' && f[1] == 'p' && f[2] == '>' && f[3] == '\n'
    ensures Html(f) == OutOfRange
    ensures HtmlCorrected(f) == Done("<p>")
  {
    ParagraphTag(f, true);
    ParagraphTag(f, false);
    HtmlTrailingBlanks(f, 3, "<p>");
  }

  /** The tag "<p>" at the start of f. */
  lemma ParagraphTag(f: string, written: bool)
    requires |f| == 4 && f[0] == '<' && f[1] == 'p' && f[2] == '>'
    ensures HtmlFrom(f, 0, [], written) == HtmlFrom(f, 3, "<p>", written)
  {
    assert SkipFrom(f, 0, Blank) == 0;
    assert UntilEnd(f, 1, EndsName) == 2;
    assert Element(f, 1, [], written) == Go(Scan(3, "<p>")) by {
      assert Attrs(f, 2, "<" + f[1..2], written) == Go(Scan(2, "<" + f[1..2]));
    }
    HtmlStepElement(f, 0, [], written);
    HtmlFromStep(f, 0, [], written);
  }

  /** "<a b=c>": as written the attribute loop never ends. */
  lemma HtmlDivergesOnBareValue(f: string)
    requires |f| == 7 && f[0] == '<' && f[1] == 'a' && f[2] == ' ' && f[3] == 'b' && f[4] == '=' && f[5] == 'c' && f[6] == '>'
    ensures Html(f) == Diverges
  {
    BareValueStart(f);
    HtmlStepElement(f, 0, [], true);
    HtmlFromStep(f, 0, [], true);
    BareValueElementWritten(f);
  }

  /** "<a b=c>": corrected, the tag is kept as it is. */
  lemma HtmlCorrectedKeepsBareValue(f: string)
    requires |f| == 7 && f[0] == '<' && f[1] == 'a' && f[2] == ' ' && f[3] == 'b' && f[4] == '=' && f[5] == 'c' && f[6] == '>'
    ensures HtmlCorrected(f) == Done(f)
  {
    BareValueStart(f);
    HtmlStepElement(f, 0, [], false);
    HtmlFromStep(f, 0, [], false);
    BareValueElementCorrected(f);
    HtmlFromDone(f, 7, f, false);
  }

  /** "<a b=c>" opens with a tag at 0. */
  lemma BareValueStart(f: string)
    requires |f| == 7 && f[0] == '<' && f[1] == 'a' && f[2] == ' ' && f[3] == 'b' && f[4] == '=' && f[5] == 'c' && f[6] == '>'
    ensures SkipFrom(f, 0, Blank) == 0 && !OpensComment(f, 1)
  {
  }

  /** The tag of "<a b=c>" as written. */
  lemma BareValueElementWritten(f: string)
    requires |f| == 7 && f[0] == '<' && f[1] == 'a' && f[2] == ' ' && f[3] == 'b' && f[4] == '=' && f[5] == 'c' && f[6] == '>'
    ensures Element(f, 1, [], true) == Loops
  {
    BareValueName(f, true);
    BareValueAttribute(f, true);
    BareValueWritten(f);
    BareValueLoops(f, 4, "<" + f[1..2] + " " + f[3..4] + "=");
  }

  /** The tag of "<a b=c>" corrected. */
  lemma BareValueElementCorrected(f: string)
    requires |f| == 7 && f[0] == '<' && f[1] == 'a' && f[2] == ' ' && f[3] == 'b' && f[4] == '=' && f[5] == 'c' && f[6] == '>'
    ensures Element(f, 1, [], false) == Go(Scan(7, f))
  {
    var o := "<" + f[1..2] + " " + f[3..4] + "=" + f[5..6];
    BareValueName(f, false);
    BareValueAttribute(f, false);
    BareValueCorrected(f);
    assert Attrs(f, 6, o, false) == Go(Scan(6, o));
    BareValueText(f);
  }

  /** "<a b=c>" put back together from its parts. */
  lemma BareValueText(f: string)
    requires |f| == 7 && f[0] == '<' && f[1] == 'a' && f[2] == ' ' && f[3] == 'b' && f[4] == '=' && f[5] == 'c' && f[6] == '>'
    ensures "<" + f[1..2] + " " + f[3..4] + "=" + f[5..6] + ">" == f
  {
    var t := "<" + f[1..2] + " " + f[3..4] + "=" + f[5..6] + ">";
    assert |t| == 7;
    forall k | 0 <= k < 7 ensures t[k] == f[k] {}
  }

  /** The tag "<a b=c>" at the start of f: its name. */
  lemma BareValueName(f: string, written: bool)
    requires |f| == 7 && f[0] == '<' && f[1] == 'a' && f[2] == ' ' && f[3] == 'b' && f[4] == '=' && f[5] == 'c' && f[6] == '>'
    ensures Element(f, 1, [], written) == Closed(Attrs(f, 3, "<" + f[1..2], written))
  {
    assert SkipWhiteSpaceFrom(f, 1) == 1;
    assert UntilEnd(f, 1, EndsName) == 2;
    assert SkipWhiteSpaceFrom(f, 2) == 3;
    assert [] + "<" + f[1..2] == "<" + f[1..2];
  }

  /** The tag "<a b=c>": the attribute's name, up to its '='. */
  lemma BareValueAttribute(f: string, written: bool)
    requires |f| == 7 && f[0] == '<' && f[1] == 'a' && f[2] == ' ' && f[3] == 'b' && f[4] == '=' && f[5] == 'c' && f[6] == '>'
    ensures var m := AttrValue(f, 3, 4, "<" + f[1..2] + " " + f[3..4], written);
      Attrs(f, 3, "<" + f[1..2], written) == if m.Go? then Attrs(f, m.next.pos, m.next.text, written) else m
  {
    assert SkipWhiteSpaceFrom(f, 3) == 3;
    assert WordEnd(f, 3, TagLimit) == 4;
    assert NextWord(f, 3, "<" + f[1..2] + " ") == Scan(4, "<" + f[1..2] + " " + f[3..4]);
    assert SkipWhiteSpaceFrom(f, 4) == 4;
  }

  /** The value of "<a b=c>" as written: the word read from the '=' is empty, and the next turn starts at the '='. */
  lemma BareValueWritten(f: string)
    requires |f| == 7 && f[0] == '<' && f[1] == 'a' && f[2] == ' ' && f[3] == 'b' && f[4] == '=' && f[5] == 'c' && f[6] == '>'
    ensures var o := "<" + f[1..2] + " " + f[3..4]; AttrValue(f, 3, 4, o, true) == Go(Scan(4, o + "="))
  {
    var o := "<" + f[1..2] + " " + f[3..4];
    assert SkipWhiteSpaceFrom(f, 5) == 5;
    assert SkipWhiteSpaceFrom(f, 4) == 4;
    assert WordEnd(f, 4, TagLimit) == 4;
    assert NextWord(f, 4, o + "=") == Scan(4, o + "=");
  }

  /** The value of "<a b=c>" corrected: the word "c", and the next turn starts at the '>'. */
  lemma BareValueCorrected(f: string)
    requires |f| == 7 && f[0] == '<' && f[1] == 'a' && f[2] == ' ' && f[3] == 'b' && f[4] == '=' && f[5] == 'c' && f[6] == '>'
    ensures var o := "<" + f[1..2] + " " + f[3..4]; AttrValue(f, 3, 4, o, false) == Go(Scan(6, o + "=" + f[5..6]))
  {
    var o := "<" + f[1..2] + " " + f[3..4];
    assert SkipWhiteSpaceFrom(f, 5) == 5;
    assert WordEnd(f, 5, TagLimit) == 6;
    assert NextWord(f, 5, o + "=") == Scan(6, o + "=" + f[5..6]);
    assert SkipWhiteSpaceFrom(f, 6) == 6;
  }

  // ---------------------------------------------------------------- the method

  /** The while loop over text, up to the next '<' or the end. */
  method Text(builder: StringBuilder, file: string, i0: nat) returns (i: nat)
    modifies builder
    ensures Scan(i, builder.text) == TextRun(file, i0, old(builder.text))
  {
    i := i0;
    while i < |file| && file[i] != '<'
      invariant i0 <= i
      invariant TextRun(file, i, builder.text) == TextRun(file, i0, old(builder.text))
      decreases |file| - i
    {
      var c := file[i];
      if c == '\t' || c == ' ' {
        builder.Append(" ");
        i := SkipWhiteSpace(file, i);
      } else if c == '\r' {
        i := i + 1;
      } else if c == '\n' {
        i := i + 1;
        builder.Append(" ");
        i := Skip(file, i, Blank);
      } else {
        builder.Append([c]);
        i := i + 1;
      }
    }
  }

  /** One turn of the while loop over the attributes of a tag. */
  method Attribute(builder: StringBuilder, file: string, h: nat) returns (t: Turn)
    requires h < |file| && file[h] != '>'
    modifies builder
    ensures t == AttrStep(file, h, old(builder.text), true)
    ensures t.Go? ==> t.next.text == builder.text
  {
    builder.Append(" ");
    var i := AppendNextWord(builder, file, h, TagLimit);
    i := SkipWhiteSpace(file, i);
    if i >= |file| {
      return Thrown;
    }
    if file[i] == '=' {
      t := Value(builder, file, h, i);
    } else {
      t := Go(Scan(i, builder.text));
    }
  }

  /** The '=' branch of a turn of the attribute loop, from the '=' at s. */
  method Value(builder: StringBuilder, file: string, h: nat, s: nat) returns (t: Turn)
    requires h <= s < |file| && file[s] == '='
    modifies builder
    ensures t == AttrValue(file, h, s, old(builder.text), true)
    ensures t.Go? ==> t.next.text == builder.text
  {
    builder.Append("=");
    var i := SkipWhiteSpace(file, s + 1);
    if i >= |file| {
      return Thrown;
    }
    var first := file[i];
    if first != '\'' && first != '"' {
      t := Unquoted(builder, file, h, i);
    } else {
      var next := Quoted(builder, file, i);
      t := Go(next);
    }
  }

  /** An unquoted value starting at t0: the next word from t0 - 1, then the white space after it. */
  method Unquoted(builder: StringBuilder, file: string, h: nat, t0: nat) returns (t: Turn)
    requires 1 <= t0 <= |file|
    modifies builder
    ensures t == UnquotedValue(file, h, t0 - 1, old(builder.text))
    ensures t.Go? ==> t.next.text == builder.text
  {
    var i := t0 - 1;
    i := AppendNextWord(builder, file, i, TagLimit);
    i := SkipWhiteSpace(file, i);
    if i == h {
      return Loops;
    }
    t := Go(Scan(i, builder.text));
  }

  /** A value quoted by the character at t0: copied with its quotes, then the white space after it. */
  method Quoted(builder: StringBuilder, file: string, t0: nat) returns (next: Scan)
    requires t0 < |file|
    modifies builder
    ensures next == QuotedValue(file, t0, old(builder.text))
    ensures next.text == builder.text
  {
    var first := file[t0];
    builder.Append([first]);
    var i := t0 + 1;
    i := AppendUntil(builder, file, i, Is(first));
    builder.Append([first]);
    i := i + 1;
    i := SkipWhiteSpace(file, i);
    assert SkipWhiteSpaceFrom(file, i) == i;
    i := SkipWhiteSpace(file, i);
    next := Scan(i, builder.text);
  }

  /** The while loop over the attributes of a tag, from h0. */
  method Attributes(builder: StringBuilder, file: string, h0: nat) returns (t: Turn)
    modifies builder
    ensures t == Attrs(file, h0, old(builder.text), true)
    ensures t.Go? ==> t.next.text == builder.text
  {
    var i := h0;
    while i < |file| && file[i] != '>'
      invariant Attrs(file, i, builder.text, true) == Attrs(file, h0, old(builder.text), true)
      decreases |file| - i
    {
      t := Attribute(builder, file, i);
      if !t.Go? {
        return;
      }
      i := t.next.pos;
    }
    t := Go(Scan(i, builder.text));
  }

  /** The loop that reads a tag's name from n, up to ' ', '\t', '>' or the end. */
  method Name(file: string, n: nat) returns (i: nat, name: string)
    requires n <= |file|
    ensures i == UntilEnd(file, n, EndsName) && name == file[n..i]
  {
    i := n;
    name := "";
    while i < |file| && file[i] != ' ' && file[i] != '\t' && file[i] != '>'
      invariant n <= i <= |file|
      invariant UntilEnd(file, i, EndsName) == UntilEnd(file, n, EndsName)
      invariant name == file[n..i]
      decreases |file| - i
    {
      name := name + [file[i]];
      i := i + 1;
    }
  }

  /** The tag branch after the '<' at k - 1: the name loop, the attributes and the closing '>'. */
  method Tag(builder: StringBuilder, file: string, k: nat) returns (t: Turn)
    requires k <= |file|
    modifies builder
    ensures t == Element(file, k, old(builder.text), true)
    ensures t.Go? ==> t.next.text == builder.text
  {
    var n := SkipWhiteSpace(file, k);
    var i, name := Name(file, n);
    builder.Append("<");
    builder.Append(name);
    i := SkipWhiteSpace(file, i);
    t := Attributes(builder, file, i);
    if t.Go? {
      builder.Append(">");
      t := Go(Scan(t.next.pos + 1, builder.text));
    }
  }

  /** The body of the for loop, from the Skip to the loop's i++. */
  method Step(builder: StringBuilder, file: string, i0: nat) returns (t: Turn)
    requires i0 < |file|
    modifies builder
    ensures t == HtmlStep(file, i0, old(builder.text), true)
    ensures t.Go? ==> t.next.text == builder.text
    ensures t.Stop? ==> builder.text == old(builder.text)
  {
    var i := Skip(file, i0, Blank);
    if i >= |file| {
      HtmlStepEnd(file, i0, builder.text, true);
      return Thrown;
    }
    if file[i] == '<' {
      i := i + 1;
      if !OpensComment(file, i) {
        HtmlStepElement(file, i0, builder.text, true);
        t := Tag(builder, file, i);
        return;
      }
      HtmlStepComment(file, i0, builder.text, true);
      var end := IndexOfCommentClose(file, i + 2);
      if end < 0 {
        return Stop;
      }
      t := Go(Scan(end + 3 + 1, builder.text));
    } else {
      HtmlStepText(file, i0, builder.text, true);
      var k := Text(builder, file, i);
      t := Go(Scan(k, builder.text));
    }
  }

  /** Minifier.HTML; OutOfRange where the source throws, Diverges where its loop never ends (in the running program it stops only when memory runs out). */
  method HTML(file: string) returns (r: Outcome)
    ensures r == Html(file)
  {
    var builder := new StringBuilder();
    var i := 0;
    while i < |file|
      invariant HtmlFrom(file, i, builder.text, true) == Html(file)
      decreases |file| - i
    {
      HtmlFromStep(file, i, builder.text, true);
      var t := Step(builder, file, i);
      if t.Stop? {
        break;
      } else if t.Thrown? {
        return OutOfRange;
      } else if t.Loops? {
        return Diverges;
      }
      i := t.next.pos;
    }
    r := Done(builder.text);
  }
}
