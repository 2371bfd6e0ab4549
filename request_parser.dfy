/**
 * RequestParser.TryParseHeader: a header line is split on its first ':'
 * (the field syntax of section 3.2 of RFC 7230), both sides are trimmed with
 * string.Trim(), and the pair is added to the caller's dictionary.
 */
module RequestParser {
  import opened Strings
  import opened Dictionaries

  /** The entry a header line stands for, or None when it has no ':'. */
  function SplitHeader(line: string): (r: Option<Entry>)
    ensures r.None? <==> ':' !in line
  {
    var index := IndexOf(line, ':');
    if index == -1 then None
    else Some(Entry(TrimWhiteSpace(line[..index]), TrimWhiteSpace(line[index + 1..])))
  }

  /** line.IndexOf(':') and the two trimmed sides, as the header parsers compute them. */
  method SplitAtColon(line: string) returns (r: Option<Entry>)
    ensures r == SplitHeader(line)
  {
    var index := IndexOf(line, ':');
    if index > -1 {
      return Some(Entry(TrimWhiteSpace(line[..index]), TrimWhiteSpace(line[index + 1..])));
    }
    return None;
  }

  /** Only the first ':' splits: the value keeps any further colons. */
  lemma SplitHeaderFirstColon(name: string, value: string)
    requires ':' !in name
    ensures SplitHeader(name + ":" + value) == Some(Entry(TrimWhiteSpace(name), TrimWhiteSpace(value)))
  {
    var line := name + ":" + value;
    assert line[|name|] == ':';
    assert line[..|name|] == name;
    assert line[|name| + 1..] == value;
  }

  /**
   * A line printed as "key: value" (the format of Response's header lines)
   * parses back to the same entry when key has no ':' and neither side has
   * surrounding white space.
   */
  lemma FormattedHeaderRoundTrip(key: string, value: string)
    requires ':' !in key
    requires TrimWhiteSpace(key) == key && TrimWhiteSpace(value) == value
    ensures SplitHeader(key + ": " + value) == Some(Entry(key, value))
  {
    SplitFormatted(key, value);
    SpaceTrimmed(value);
  }

  /** "key: value" splits at the colon after key, leaving the space on the value side. */
  lemma SplitFormatted(key: string, value: string)
    requires ':' !in key
    ensures SplitHeader(key + ": " + value) == Some(Entry(TrimWhiteSpace(key), TrimWhiteSpace(" " + value)))
  {
    assert key + ": " + value == key + ":" + (" " + value);
    SplitHeaderFirstColon(key, " " + value);
  }

  /** The space after the colon is trimmed away with the rest of the value's padding. */
  lemma SpaceTrimmed(value: string)
    ensures TrimWhiteSpace(" " + value) == TrimWhiteSpace(value)
  {
    assert ' ' in WhiteSpace;
    TrimStartPadding(" ", value, WhiteSpace);
  }

  /** "Content-Length" is a header name the parser keeps as it is. */
  lemma ContentLengthName()
    ensures ':' !in "Content-Length"
    ensures TrimWhiteSpace("Content-Length") == "Content-Length"
  {
    ContentLengthTrimmed();
  }

  lemma ContentLengthTrimmed()
    ensures TrimWhiteSpace("Content-Length") == "Content-Length"
  {
    assert "Content-Length"[0] == 'C' && "Content-Length"[13] == 'h';
    TrimUnpadded("Content-Length", WhiteSpace);
  }

  /** What TryParseHeader did: returned true, returned false, or threw (Dictionary.Add on a present key). */
  datatype HeaderOutcome = Added | NotAHeader | DuplicateKey

  /** TryParseHeader; a null dictionary is allowed and then nothing is inserted. */
  method TryParseHeader(line: string, headers: Dictionary?) returns (r: HeaderOutcome)
    requires headers != null ==> headers.Valid()
    modifies headers
    ensures headers != null ==> headers.Valid()
    ensures r == NotAHeader <==> ':' !in line
    ensures r == DuplicateKey <==>
      headers != null && ':' in line && SplitHeader(line).value.key in Keys(old(headers.entries))
    ensures headers != null ==>
      headers.entries == if r == Added then old(headers.entries) + [SplitHeader(line).value] else old(headers.entries)
  {
    var index := IndexOf(line, ':');
    if index > -1 {
      if headers != null {
        var ok := headers.Add(TrimWhiteSpace(line[..index]), TrimWhiteSpace(line[index + 1..]));
        if !ok {
          return DuplicateKey;
        }
      }
      return Added;
    }
    return NotAHeader;
  }
}
