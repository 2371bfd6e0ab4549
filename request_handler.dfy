/**
 * RequestHandler: one connection's message loop. Each message is a request
 * line, header lines up to a blank line, and a body of Content-Length
 * characters; the handler answers with a shared BadRequest or NotFound
 * response or with what the application handler returns, and a failed
 * request line, route, header or Content-Length kills the connection, as
 * does a null response, which is not sent.
 *
 * The network stream is the text the client sends, read with the semantics of
 * StreamReader.ReadLine and ReadBlock; an exception ends the connection.
 */
module RequestHandlers {
  import opened Strings
  import opened Dictionaries
  import opened Routing
  import opened Requests
  import opened RequestParser

  // ---------------------------------------------------------------- reading the stream

  /** The first index at or after k holding '\r' or '\n', or |s|. */
  function LineEnd(s: string, k: nat): (e: nat)
    requires k <= |s|
    ensures k <= e <= |s|
    ensures forall j :: k <= j < e ==> s[j] != '\r' && s[j] != '\n'
    ensures e < |s| ==> s[e] == '\r' || s[e] == '\n'
    decreases |s| - k
  {
    if k == |s| || s[k] == '\r' || s[k] == '\n' then k else LineEnd(s, k + 1)
  }

  datatype Line = Line(text: string, next: nat)

  /** StreamReader.ReadLine at a position that is not the end of the stream: a line ends at "\r\n", '\r', '\n' or the end. */
  function ReadLine(s: string, pos: nat): (r: Line)
    requires pos < |s|
    ensures pos < r.next <= |s|
  {
    var e := LineEnd(s, pos);
    var next := if e == |s| then e else if s[e] == '\r' && e + 1 < |s| && s[e + 1] == '\n' then e + 2 else e + 1;
    Line(s[pos..e], next)
  }

  /** ReadLine consumes the line and exactly one terminator, and the line holds no terminator. */
  lemma ReadLineConsumes(s: string, pos: nat)
    requires pos < |s|
    ensures var r := ReadLine(s, pos);
      && '\r' !in r.text && '\n' !in r.text
      && s[pos..r.next] in {r.text, r.text + "\n", r.text + "\r", r.text + "\r\n"}
  {
    var r := ReadLine(s, pos);
    var e := LineEnd(s, pos);
    assert r.text == s[pos..e];
    if e == |s| {
      assert s[pos..r.next] == r.text;
    } else if s[e] == '\r' && e + 1 < |s| && s[e + 1] == '\n' {
      assert s[pos..r.next] == r.text + "\r\n";
    } else if s[e] == '\r' {
      assert s[pos..r.next] == r.text + "\r";
    } else {
      assert s[pos..r.next] == r.text + "\n";
    }
  }

  /** n NUL characters: what is left of a char[n] ReadBlock could not fill. */
  function Zeros(n: nat): (z: string)
    ensures |z| == n && forall k :: 0 <= k < n ==> z[k] == '\0'
  {
    if n == 0 then [] else Zeros(n - 1) + ['\0']
  }

  datatype Block = Block(text: string, next: nat)

  /** ReadBlock into a char[n]: the next n characters, or those left before the end followed by NULs. */
  function ReadBlock(s: string, pos: nat, n: nat): (r: Block)
    requires pos <= |s|
    ensures |r.text| == n && pos <= r.next <= |s| && r.next - pos <= n
    ensures r.text[..r.next - pos] == s[pos..r.next]
    ensures r.next < |s| ==> r.next - pos == n
    ensures forall k :: r.next - pos <= k < n ==> r.text[k] == '\0'
  {
    var count := if n <= |s| - pos then n else |s| - pos;
    var read := s[pos..pos + count];
    var zeros := Zeros(n - count);
    var text := read + zeros;
    assert |text| == n && text[..count] == read;
    assert forall k :: count <= k < n ==> text[k] == zeros[k - count];
    Block(text, pos + count)
  }

  // ---------------------------------------------------------------- per-message state

  /** What the handler sends for a message. */
  datatype Reply =
    | BadRequestReply                                     // the shared Response.BadRequest
    | NotFoundReply                                       // the shared Response.NotFound
    | HeaderErrorReply(line: string)                      // 400 with body "Could not parse as a header: " + line
    | HandlerReply(handler: HandlerId, request: Request)  // the application handler's response to request

  /** What the application handler, a Func<Request, Task<Response>>, makes of a request. */
  datatype Invoked =
    | Replied        // a Response, which HandlerReply stands for
    | NullResponse   // a Task whose result is null
    | HandlerThrew   // an exception, or a null Task that cannot be awaited

  /** The largest length of a .NET array; new char[n] throws above it. */
  const MaxArrayLength: int := 0x7FFF_FFC7

  /** The exceptions the message loop can raise. */
  datatype Failure =
    | NoSpaceInRequestLine      // Substring(0, -1) in ParseRoot
    | NoProtocolVersion         // Substring with a negative length: no "HTTP/" after the first space
    | DuplicateHeader           // Dictionary.Add of a header name already present
    | NegativeContentLength     // new char[n] with n < 0
    | BodyTooLarge              // new char[n] with n above MaxArrayLength
    | NoRequest                 // request.Headers on a null request
    | HandlerFailed             // the application handler threw

  /** Why HandleAsync returned. */
  datatype Ending = StreamEnded | Killed | Threw(failure: Failure)

  /** The fields of a RequestHandler the message loop reads and writes. */
  datatype Fields = Fields(
    response: Option<Reply>,
    handler: Option<HandlerId>,
    url: string,
    filters: Option<Filter>,
    request: Option<Request>,
    headers: seq<Entry>)

  /** The routing tables of the two methods, HttpUtility.UrlDecode and what each application handler does. */
  datatype Context = Context(
    get: map<string, HandlerId>,
    post: map<string, HandlerId>,
    decode: string -> string,
    invoke: (HandlerId, Request) -> Invoked)

  // ---------------------------------------------------------------- the request line

  datatype Target = Target(path: string, filters: Option<Filter>)

  /**
   * The '?' step of ParseRoot: the path is what comes before the first '?',
   * and the query after it becomes the filters when, trimmed, it is not empty.
   */
  function SplitQuery(url: string): (t: Target)
    ensures |t.path| <= |url| && t.path == url[..|t.path|] && '?' !in t.path
    ensures '?' in url <==> |t.path| < |url|
    ensures |t.path| < |url| ==> url[|t.path|] == '?'
    ensures t.filters.Some? <==> |t.path| < |url| && TrimWhiteSpace(url[|t.path| + 1..]) != []
    ensures t.filters.Some? ==> t.filters.value == Filter(TrimWhiteSpace(url[|t.path| + 1..]))
  {
    var q := IndexOf(url, '?');
    if q == -1 then
      Target(url, None)
    else
      var query := if |url| > q + 1 then Some(TrimWhiteSpace(url[q + 1..])) else None;
      Target(url[..q], if query.Some? && |query.value| > 0 then Some(Filter(query.value)) else None)
  }

  datatype RootStep = RootStep(fields: Fields, ok: bool, failure: Option<Failure>)

  /** ParseRoot: the method selects a routing table, the target is decoded, split at '?' and looked up. */
  function ParseRootSpec(line: string, f: Fields, ctx: Context): (r: RootStep)
    ensures r.failure.Some? ==> r.fields == f && !r.ok
    ensures r.ok ==> r.failure.None? && r.fields.handler.Some? && r.fields.response == f.response
    ensures r.failure.None? && !r.ok ==> r.fields.response in {Some(BadRequestReply), Some(NotFoundReply)}
    ensures !r.ok ==> r.fields.handler == f.handler || r.fields.handler.None?
    ensures r.fields.headers == f.headers && r.fields.request == f.request
  {
    var index := IndexOf(line, ' ');
    if index == -1 then RootStep(f, false, Some(NoSpaceInRequestLine))
    else
      var verb := line[..index];
      if verb != "GET" && verb != "POST" then
        RootStep(f.(response := Some(BadRequestReply)), false, None)
      else
        Versioned(line, index, f, if verb == "GET" then ctx.get else ctx.post, ctx.decode)
  }

  /** The rest of ParseRoot once the method is known: the target runs from after the first space to the last "HTTP/". */
  function Versioned(line: string, index: nat, f: Fields, table: map<string, HandlerId>, decode: string -> string): RootStep {
    var endIndex := LastIndexOf(line, "HTTP/");
    if endIndex < index + 1 then RootStep(f, false, Some(NoProtocolVersion))
    else Route(SplitQuery(decode(line[index + 1..endIndex])), f, table)
  }

  /** The end of ParseRoot: the path of the target is looked up; a miss sets the NotFound response. */
  function Route(target: Target, f: Fields, table: map<string, HandlerId>): (r: RootStep)
    ensures r.failure.None? && (r.ok <==> Lookup(table, target.path).Some?)
    ensures r.fields.url == target.path && r.fields.filters == target.filters
    ensures r.fields.handler == Lookup(table, target.path)
  {
    var handler := Lookup(table, target.path);
    var g := f.(url := target.path, filters := target.filters, handler := handler);
    if handler.None? then RootStep(g.(response := Some(NotFoundReply)), false, None)
    else RootStep(g, true, None)
  }

  // ---------------------------------------------------------------- header lines

  datatype HeaderStep = HeaderStep(fields: Fields, ok: bool, failure: Option<Failure>)

  /** ParseHeader: a line with ':' is added to the headers, one without sets the 400 response. */
  function ParseHeaderSpec(line: string, f: Fields): (r: HeaderStep)
    ensures r.fields.(headers := f.headers, response := f.response) == f
    ensures r.fields.response == f.response || (r.fields.response.Some? && r.fields.response.value.HeaderErrorReply?)
    ensures f.headers <= r.fields.headers
    ensures r.failure.Some? ==> r.failure == Some(DuplicateHeader)
  {
    match SplitHeader(line)
    case None => HeaderStep(f.(response := Some(HeaderErrorReply(line))), false, None)
    case Some(e) =>
      if e.key in Keys(f.headers) then HeaderStep(f, false, Some(DuplicateHeader))
      else HeaderStep(f.(headers := f.headers + [e]), true, None)
  }

  /**
   * A header line is added exactly when it has a ':' and its name is new, so
   * the header names stay unique.
   */
  lemma ParseHeaderAdds(line: string, f: Fields)
    ensures var r := ParseHeaderSpec(line, f);
      && (r.ok <==> SplitHeader(line).Some? && SplitHeader(line).value.key !in Keys(f.headers))
      && (r.ok ==> r.fields == f.(headers := f.headers + [SplitHeader(line).value]) && r.failure.None?)
      && (UniqueKeys(f.headers) ==> UniqueKeys(r.fields.headers))
  {
    var split := SplitHeader(line);
    if split.Some? && split.value.key !in Keys(f.headers) && UniqueKeys(f.headers) {
      PutUnique(f.headers, split.value.key, split.value.value);
    }
  }

  /** Where a phase of a message has got to: the fields, the stream position, killConnection and a raised exception. */
  datatype Progress = Progress(fields: Fields, pos: nat, kill: bool, failure: Option<Failure>)

  /** The header loop: read lines until the end of the stream, a blank line, a kill or an exception. */
  function ReadHeaders(input: string, p: Progress): (r: Progress)
    requires p.pos <= |input|
    ensures p.pos <= r.pos <= |input|
    ensures p.kill || p.failure.Some? ==> r == p
    ensures r.fields.(headers := p.fields.headers, response := p.fields.response) == p.fields
    ensures r.fields.response == p.fields.response || (r.fields.response.Some? && r.fields.response.value.HeaderErrorReply?)
    ensures p.fields.headers <= r.fields.headers
    ensures UniqueKeys(p.fields.headers) ==> UniqueKeys(r.fields.headers)
    ensures r.failure.Some? ==> r.failure == p.failure || r.failure == Some(DuplicateHeader)
    ensures !r.kill ==> r.fields.response == p.fields.response
    ensures r.kill && !p.kill && r.failure.None? ==>
      r.fields.response.Some? && r.fields.response.value.HeaderErrorReply? && ':' !in r.fields.response.value.line
    decreases |input| - p.pos
  {
    if p.pos == |input| || p.kill || p.failure.Some? then p
    else
      var line := ReadLine(input, p.pos);
      if IsNullOrWhiteSpace(Some(line.text)) then p.(pos := line.next)
      else
        var step := ParseHeaderSpec(line.text, p.fields);
        ParseHeaderAdds(line.text, p.fields);
        ReadHeaders(input, Progress(step.fields, line.next, !step.ok, step.failure))
  }

  // ---------------------------------------------------------------- body and dispatch

  /**
   * The Content-Length rule: read that many characters as the body, or build
   * a request without one. Only a Content-Length that long.TryParse rejects
   * kills, and only one that is no array length throws.
   */
  function ReadBody(input: string, p: Progress): (r: Progress)
    requires p.pos <= |input|
    ensures p.pos <= r.pos <= |input|
    ensures r.fields.(request := p.fields.request) == p.fields
    ensures var length := Find(p.fields.headers, "Content-Length");
      r.kill <==> p.kill || (length.Some? && ParseLong(length.value).None?)
    ensures var length := Find(p.fields.headers, "Content-Length");
      p.failure.None? ==>
        (r.failure.Some? <==> length.Some? && ParseLong(length.value).Some? && !(0 <= ParseLong(length.value).value <= MaxArrayLength))
    ensures r.failure == p.failure || r.failure in {Some(NegativeContentLength), Some(BodyTooLarge)}
  {
    var f := p.fields;
    var length := Find(f.headers, "Content-Length");
    if length.None? then
      p.(fields := f.(request := Some(NewRequest(f.filters, f.headers, None))))
    else Sized(input, p, length.value)
  }

  /**
   * A Content-Length header is present: long.TryParse fails and kills, a
   * length that is no array length throws, otherwise read the body.
   */
  function Sized(input: string, p: Progress, length: string): (r: Progress)
    requires p.pos <= |input|
    ensures r.kill <==> p.kill || ParseLong(length).None?
    ensures p.failure.None? ==>
      (r.failure.Some? <==> ParseLong(length).Some? && !(0 <= ParseLong(length).value <= MaxArrayLength))
  {
    var f := p.fields;
    match ParseLong(length)
    case None => p.(kill := true)
    case Some(n) =>
      if n < 0 then p.(failure := Some(NegativeContentLength))
      else if n > MaxArrayLength then p.(failure := Some(BodyTooLarge))
      else
        var block := ReadBlock(input, p.pos, n);
        p.(fields := f.(request := Some(NewRequest(f.filters, f.headers, Some(block.text)))), pos := block.next)
  }

  /**
   * The handler step: with a handler, a killed connection first gets
   * "Connection: close" in the request's headers (the handler's own
   * dictionary, which every Request it builds shares), then what the
   * application handler returns replaces any response set so far: its
   * response, or null; or it throws.
   */
  function Dispatch(p: Progress, invoke: (HandlerId, Request) -> Invoked): (r: Progress)
    ensures r.pos == p.pos && r.kill == p.kill && r.fields.handler == p.fields.handler
  {
    var f := p.fields;
    if f.handler.None? then p
    else if f.request.None? then p.(failure := Some(NoRequest))
    else
      var headers := if p.kill then Put(f.headers, "Connection", "close") else f.headers;
      var request := f.request.value.(headers := headers);
      var g := f.(headers := headers, request := Some(request));
      match invoke(f.handler.value, request)
      case Replied => p.(fields := g.(response := Some(HandlerReply(f.handler.value, request))))
      case NullResponse => p.(fields := g.(response := None))
      case HandlerThrew => p.(fields := g, failure := Some(HandlerFailed))
  }

  /** The handler step does not depend on the stream position. */
  lemma DispatchAnyPos(p: Progress, pos: nat, invoke: (HandlerId, Request) -> Invoked)
    ensures Dispatch(p.(pos := pos), invoke) == Dispatch(p, invoke).(pos := pos)
  {
  }

  /** The shared variables HandleAsync resets at the start of every message. */
  function Reset(f: Fields): (r: Fields)
    ensures r.response.None? && r.handler.None? && r.headers == []
    ensures r.url == f.url && r.filters == f.filters && r.request == f.request
  {
    f.(response := None, handler := None, headers := [])
  }

  /** One iteration of the message loop, from the request line to the response to send. */
  function Message(input: string, pos: nat, f: Fields, ctx: Context): (r: Progress)
    requires pos < |input|
    ensures pos < r.pos <= |input|
  {
    var line := ReadLine(input, pos);
    var root := ParseRootSpec(line.text, Reset(f), ctx);
    if root.failure.Some? then Progress(root.fields, line.next, false, root.failure)
    else AfterRoot(input, Progress(root.fields, line.next, !root.ok, None), ctx.invoke)
  }

  /** The rest of a message after its request line: headers, then body and dispatch. */
  function AfterRoot(input: string, p: Progress, invoke: (HandlerId, Request) -> Invoked): (r: Progress)
    requires p.pos <= |input|
    ensures p.pos <= r.pos <= |input|
  {
    var h := ReadHeaders(input, p);
    if h.failure.Some? then h else AfterHeaders(input, h, invoke)
  }

  /** The rest of a message after its headers: the Content-Length rule, then dispatch. */
  function AfterHeaders(input: string, h: Progress, invoke: (HandlerId, Request) -> Invoked): (r: Progress)
    requires h.pos <= |input|
    ensures h.pos <= r.pos <= |input|
  {
    var b := ReadBody(input, h);
    if b.failure.Some? then b else Dispatch(b, invoke)
  }

  /** What HandleAsync sends, why it stops, and the fields it leaves. */
  datatype Conversation = Conversation(sent: seq<Reply>, ending: Ending, fields: Fields)

  /** The message loop: until the end of the stream, a kill or an exception; a message without a response kills. */
  function Converse(input: string, pos: nat, f: Fields, ctx: Context): Conversation
    requires pos <= |input|
    decreases |input| - pos
  {
    if pos == |input| then Conversation([], StreamEnded, f)
    else
      var m := Message(input, pos, f, ctx);
      if m.failure.Some? then Conversation([], Threw(m.failure.value), m.fields)
      else if m.fields.response.None? then Conversation([], Killed, m.fields)
      else if m.kill then Conversation([m.fields.response.value], Killed, m.fields)
      else
        var rest := Converse(input, m.pos, m.fields, ctx);
        Conversation([m.fields.response.value] + rest.sent, rest.ending, rest.fields)
  }

  /** The replies sent before a conversation's own. */
  function Prepend(sent: seq<Reply>, c: Conversation): (r: Conversation)
    ensures |r.sent| == |sent| + |c.sent| && r.sent[..|sent|] == sent && r.sent[|sent|..] == c.sent
    ensures r.ending == c.ending && r.fields == c.fields
  {
    Conversation(sent + c.sent, c.ending, c.fields)
  }

  /** Converse after one message, as the loop of HandleAsync takes it. */
  lemma ConverseStep(input: string, pos: nat, f: Fields, ctx: Context)
    requires pos < |input|
    ensures var m := Message(input, pos, f, ctx);
      Converse(input, pos, f, ctx) ==
        if m.failure.Some? then Conversation([], Threw(m.failure.value), m.fields)
        else if m.fields.response.None? then Conversation([], Killed, m.fields)
        else if m.kill then Conversation([m.fields.response.value], Killed, m.fields)
        else Prepend([m.fields.response.value], Converse(input, m.pos, m.fields, ctx))
  {
  }

  lemma ConverseAtEnd(input: string, f: Fields, ctx: Context)
    ensures Converse(input, |input|, f, ctx) == Conversation([], StreamEnded, f)
  {
  }

  lemma PrependTwice(a: seq<Reply>, b: seq<Reply>, c: Conversation)
    ensures Prepend(a, Prepend(b, c)) == Prepend(a + b, c)
  {
    assert a + (b + c.sent) == a + b + c.sent;
  }

  lemma PrependConversation(a: seq<Reply>, b: seq<Reply>, e: Ending, f: Fields)
    ensures Prepend(a, Conversation(b, e, f)) == Conversation(a + b, e, f)
  {
  }

  // ---------------------------------------------------------------- properties of a message

  /** The first space of a request line ends its method. */
  lemma FirstSpace(verb: string, rest: string)
    requires ' ' !in verb
    ensures IndexOf(verb + " " + rest, ' ') == |verb|
    ensures (verb + " " + rest)[..|verb|] == verb
  {
    var line := verb + " " + rest;
    assert line[|verb|] == ' ';
    assert line[..|verb|] == verb;
  }

  /** A method other than GET and POST gets the BadRequest response and no route lookup. */
  lemma BadMethodRejected(verb: string, rest: string, f: Fields, ctx: Context)
    requires ' ' !in verb && verb != "GET" && verb != "POST"
    ensures ParseRootSpec(verb + " " + rest, f, ctx) == RootStep(f.(response := Some(BadRequestReply)), false, None)
  {
    FirstSpace(verb, rest);
    assert (verb + " " + rest)[..|verb|] == verb;
  }

  /** With no 'H' in the version, the last "HTTP/" of the line is the protocol marker itself. */
  lemma LastProtocol(prefix: string, version: string)
    requires 'H' !in version
    ensures LastIndexOf(prefix + "HTTP/" + version, "HTTP/") == |prefix|
  {
    var line := prefix + "HTTP/" + version;
    assert OccursAt(line, "HTTP/", |prefix|) by {
      assert line[|prefix|..|prefix| + 5] == "HTTP/";
    }
    forall j | |prefix| < j < |line|
      ensures line[j] != 'H'
    {
      if j >= |prefix| + 5 {
        assert line[j] == version[j - |prefix| - 5];
      }
    }
    var r := LastIndexOf(line, "HTTP/");
    assert r >= |prefix|;
    assert line[r] == line[r..r + 5][0];
  }

  /** Where ParseRoot cuts "METHOD SP target SP HTTP/version": after the method and before "HTTP/". */
  lemma RequestLineCuts(verb: string, target: string, version: string)
    requires ' ' !in verb && 'H' !in version
    ensures var line := verb + " " + target + " HTTP/" + version;
      && IndexOf(line, ' ') == |verb| && line[..|verb|] == verb
      && LastIndexOf(line, "HTTP/") == |verb| + |target| + 2
      && line[|verb| + 1..|verb| + |target| + 2] == target + " "
  {
    var line := verb + " " + target + " HTTP/" + version;
    RequestLineShapes(verb, target, version);
    FirstSpace(verb, target + " HTTP/" + version);
    LastProtocol(verb + " " + target + " ", version);
  }

  /** The request line read two ways: the method then the rest, and everything before "HTTP/" then the version. */
  lemma RequestLineShapes(verb: string, target: string, version: string)
    ensures var line := verb + " " + target + " HTTP/" + version;
      && line == verb + " " + (target + " HTTP/" + version)
      && line == (verb + " " + target + " ") + "HTTP/" + version
      && line[|verb| + 1..|verb| + |target| + 2] == target + " "
  {
    var line := verb + " " + target + " HTTP/" + version;
    var prefix := verb + " " + target + " ";
    assert line == prefix + "HTTP/" + version;
    assert line[..|prefix|] == prefix;
    assert prefix[|verb| + 1..] == target + " ";
  }

  /**
   * The request line "METHOD SP target SP HTTP/version": the target, with the
   * space before "HTTP/" still on it, is decoded and cut at '?', and the path
   * is looked up in the method's table; a miss sets the NotFound response.
   */
  lemma RequestLineTarget(verb: string, target: string, version: string, f: Fields, ctx: Context)
    requires verb == "GET" || verb == "POST"
    requires 'H' !in version
    ensures var r := ParseRootSpec(verb + " " + target + " HTTP/" + version, f, ctx);
      var t := SplitQuery(ctx.decode(target + " "));
      var h := Lookup(if verb == "GET" then ctx.get else ctx.post, t.path);
      && r.failure.None? && (r.ok <==> h.Some?)
      && r.fields.url == t.path && r.fields.filters == t.filters && r.fields.handler == h
      && r.fields.response == (if h.None? then Some(NotFoundReply) else f.response)
  {
    var line := verb + " " + target + " HTTP/" + version;
    RequestLineCuts(verb, target, version);
    var t := SplitQuery(ctx.decode(target + " "));
    var h := Lookup(if verb == "GET" then ctx.get else ctx.post, t.path);
    var g := f.(url := t.path, filters := t.filters, handler := h);
    assert ParseRootSpec(line, f, ctx) ==
      if h.None? then RootStep(g.(response := Some(NotFoundReply)), false, None) else RootStep(g, true, None);
  }

  /**
   * The handler step: with a handler, the request carries the message's
   * headers, "Connection: close" among them on a killed connection, and the
   * outcome of the application handler decides: its response, no response
   * for a null, or an exception.
   */
  lemma DispatchReplies(b: Progress, invoke: (HandlerId, Request) -> Invoked)
    ensures var r := Dispatch(b, invoke);
      && (b.fields.handler.None? ==> r == b)
      && (b.fields.handler.Some? && b.fields.request.None? ==> r.failure == Some(NoRequest))
      && (b.fields.handler.Some? && b.fields.request.Some? ==>
            && r.fields.request == Some(b.fields.request.value.(headers := r.fields.headers))
            && (b.kill ==> Find(r.fields.headers, "Connection") == Some("close"))
            && (!b.kill ==> r.fields.headers == b.fields.headers)
            && (var h := b.fields.handler.value;
                var outcome := invoke(h, r.fields.request.value);
                && (outcome.Replied? ==> r.fields.response == Some(HandlerReply(h, r.fields.request.value)) && r.failure == b.failure)
                && (outcome.NullResponse? ==> r.fields.response.None? && r.failure == b.failure)
                && (outcome.HandlerThrew? ==> r.failure == Some(HandlerFailed))))
  {
    var f := b.fields;
    if f.handler.Some? && f.request.Some? {
      var headers := if b.kill then Put(f.headers, "Connection", "close") else f.headers;
      var request := f.request.value.(headers := headers);
      var g := f.(headers := headers, request := Some(request));
      if b.kill {
        PutFind(f.headers, "Connection", "close", "Connection");
      }
      match invoke(f.handler.value, request)
      case Replied =>
        assert Dispatch(b, invoke) == b.(fields := g.(response := Some(HandlerReply(f.handler.value, request))));
      case NullResponse =>
        assert Dispatch(b, invoke) == b.(fields := g.(response := None));
      case HandlerThrew =>
        assert Dispatch(b, invoke) == b.(fields := g, failure := Some(HandlerFailed));
    }
  }

  /**
   * Headers, body and dispatch keep the handler; with a handler and no
   * exception the request carries the message's headers and the response is
   * the application handler's, or none when it returned null.
   */
  lemma AfterRootReplies(input: string, p: Progress, invoke: (HandlerId, Request) -> Invoked)
    requires p.pos <= |input| && p.failure.None?
    ensures var r := AfterRoot(input, p, invoke);
      && r.fields.handler == p.fields.handler
      && (p.kill ==> r.kill)
      && (p.kill && p.fields.handler.None? && r.failure.None? ==> r.fields.response == p.fields.response)
      && (p.fields.handler.Some? && r.failure.None? ==>
            && r.fields.request.Some?
            && r.fields.request.value.headers == r.fields.headers
            && (r.kill ==> Find(r.fields.headers, "Connection") == Some("close"))
            && (r.fields.response.None? <==> invoke(p.fields.handler.value, r.fields.request.value).NullResponse?)
            && (r.fields.response.Some? ==> r.fields.response == Some(HandlerReply(p.fields.handler.value, r.fields.request.value))))
  {
    var h := ReadHeaders(input, p);
    if h.failure.None? {
      assert AfterRoot(input, p, invoke) == AfterHeaders(input, h, invoke);
      AfterHeadersReplies(input, h, invoke);
    }
  }

  /** The body and dispatch keep the handler and kill flag; with a handler the response is the handler's outcome. */
  lemma AfterHeadersReplies(input: string, h: Progress, invoke: (HandlerId, Request) -> Invoked)
    requires h.pos <= |input| && h.failure.None?
    ensures var r := AfterHeaders(input, h, invoke);
      && r.fields.handler == h.fields.handler
      && (h.kill ==> r.kill)
      && (h.fields.handler.None? && r.failure.None? ==> r.fields.response == h.fields.response)
      && (h.fields.handler.Some? && r.failure.None? ==>
            && r.fields.request.Some?
            && r.fields.request.value.headers == r.fields.headers
            && (r.kill ==> Find(r.fields.headers, "Connection") == Some("close"))
            && (r.fields.response.None? <==> invoke(h.fields.handler.value, r.fields.request.value).NullResponse?)
            && (r.fields.response.Some? ==> r.fields.response == Some(HandlerReply(h.fields.handler.value, r.fields.request.value))))
  {
    var b := ReadBody(input, h);
    if b.failure.None? {
      assert AfterHeaders(input, h, invoke) == Dispatch(b, invoke);
      DispatchReplies(b, invoke);
    }
  }

  /**
   * A message that raises no exception and has no handler was refused with
   * BadRequest or NotFound and kills; with a handler, the response is the
   * application handler's, or none exactly when it returned null. The 400 of
   * a bad header line is never sent: the handler's outcome replaces it.
   */
  lemma MessageReplies(input: string, pos: nat, f: Fields, ctx: Context)
    requires pos < |input|
    ensures var m := Message(input, pos, f, ctx);
      m.failure.None? ==>
        && (m.fields.response.Some? ==> !m.fields.response.value.HeaderErrorReply?)
        && (!m.kill && m.fields.response.Some? ==> m.fields.response.value.HandlerReply?)
        && (m.fields.handler.None? ==> m.kill && m.fields.response in {Some(BadRequestReply), Some(NotFoundReply)})
        && (m.fields.handler.Some? ==>
              && m.fields.request.Some?
              && m.fields.request.value.headers == m.fields.headers
              && (m.kill ==> Find(m.fields.headers, "Connection") == Some("close"))
              && (m.fields.response.None? <==> ctx.invoke(m.fields.handler.value, m.fields.request.value).NullResponse?)
              && (m.fields.response.Some? ==> m.fields.response.value == HandlerReply(m.fields.handler.value, m.fields.request.value)))
  {
    var line := ReadLine(input, pos);
    var root := ParseRootSpec(line.text, Reset(f), ctx);
    if root.failure.None? {
      AfterRootReplies(input, Progress(root.fields, line.next, !root.ok, None), ctx.invoke);
    }
  }

  /**
   * killConnection is set by exactly three things: a refused request line, a
   * header line without ':', and a Content-Length that long.TryParse rejects.
   */
  lemma MessageKill(input: string, pos: nat, f: Fields, ctx: Context)
    requires pos < |input|
    ensures var line := ReadLine(input, pos);
      var root := ParseRootSpec(line.text, Reset(f), ctx);
      var h := ReadHeaders(input, Progress(root.fields, line.next, !root.ok, None));
      var length := Find(h.fields.headers, "Content-Length");
      var m := Message(input, pos, f, ctx);
      m.failure.None? ==>
        (m.kill <==>
          || !root.ok
          || (h.fields.response.Some? && h.fields.response.value.HeaderErrorReply? && ':' !in h.fields.response.value.line)
          || (length.Some? && ParseLong(length.value).None?))
  {
    var line := ReadLine(input, pos);
    var root := ParseRootSpec(line.text, Reset(f), ctx);
    if root.failure.None? {
      var p := Progress(root.fields, line.next, !root.ok, None);
      var h := ReadHeaders(input, p);
      if h.failure.None? {
        var b := ReadBody(input, h);
        if b.failure.None? {
          DispatchReplies(b, ctx.invoke);
        }
      }
    }
  }

  /** Without a Content-Length header the request has no body and nothing more is read. */
  lemma NoContentLengthNoBody(input: string, p: Progress)
    requires p.pos <= |input| && Find(p.fields.headers, "Content-Length").None?
    ensures var r := ReadBody(input, p);
      && r.pos == p.pos && r.kill == p.kill && r.failure == p.failure
      && r.fields.request.Some? && !r.fields.request.value.hasBody && r.fields.request.value.body == ""
  {
  }

  /**
   * A Content-Length of n, written as the Response writes it and no larger
   * than an array can be, is parsed back and ReadBody reads a block of n
   * characters into a new request.
   */
  lemma ContentLengthRead(input: string, p: Progress, n: nat)
    requires p.pos <= |input| && n <= MaxArrayLength
    requires Find(p.fields.headers, "Content-Length") == Some(NatToString(n))
    ensures var block := ReadBlock(input, p.pos, n);
      ReadBody(input, p) == p.(fields := p.fields.(request := Some(NewRequest(p.fields.filters, p.fields.headers, Some(block.text)))), pos := block.next)
  {
    ParseLongNatToString(n);
  }

  /** A Content-Length above the largest array length throws before anything is read. */
  lemma ContentLengthTooLarge(input: string, p: Progress, n: nat)
    requires p.pos <= |input| && MaxArrayLength < n <= LongMax
    requires Find(p.fields.headers, "Content-Length") == Some(NatToString(n))
    ensures ReadBody(input, p) == p.(failure := Some(BodyTooLarge))
  {
    ParseLongNatToString(n);
  }

  /**
   * The request built from a block of n characters has a body: the next n
   * characters when the stream still holds them (unless they are all white
   * space), and the read stops at n characters or the end of the stream.
   */
  lemma BlockRequest(input: string, pos: nat, n: nat, filters: Option<Filter>, headers: seq<Entry>)
    requires pos <= |input|
    ensures var block := ReadBlock(input, pos, n);
      var request := NewRequest(filters, headers, Some(block.text));
      && request.hasBody
      && block.next == pos + (if n <= |input| - pos then n else |input| - pos)
      && (pos + n <= |input| && !IsNullOrWhiteSpace(Some(input[pos..pos + n])) ==> request.body == input[pos..pos + n])
  {
    var block := ReadBlock(input, pos, n);
    BodyNormalised(filters, headers, Some(block.text));
    if pos + n <= |input| {
      BlockInRange(input, pos, n);
    }
  }

  /** A block that fits in what is left of the stream is exactly the next n characters. */
  lemma BlockInRange(s: string, pos: nat, n: nat)
    requires pos + n <= |s|
    ensures ReadBlock(s, pos, n) == Block(s[pos..pos + n], pos + n)
  {
    var block := ReadBlock(s, pos, n);
    assert block.text == block.text[..n];
  }

  /**
   * A Content-Length that does not parse kills the connection and builds no
   * request: the one left from the previous message is what gets dispatched.
   */
  lemma UnparseableContentLength(input: string, p: Progress)
    requires p.pos <= |input|
    requires var length := Find(p.fields.headers, "Content-Length"); length.Some? && ParseLong(length.value).None?
    ensures ReadBody(input, p) == p.(kill := true)
  {
  }

  // ---------------------------------------------------------------- properties of a conversation

  /**
   * What a connection sends: no 400 for a bad header line, the application
   * handler's responses before the last reply, and only those when the
   * stream simply ended.
   */
  predicate WellReplied(c: Conversation) {
    && (forall i :: 0 <= i < |c.sent| ==> !c.sent[i].HeaderErrorReply?)
    && (forall i :: 0 <= i < |c.sent| - 1 ==> c.sent[i].HandlerReply?)
    && (c.ending == StreamEnded ==> forall i :: 0 <= i < |c.sent| ==> c.sent[i].HandlerReply?)
  }

  /** Application handlers that always return a response: they never return null and never throw. */
  ghost predicate AlwaysReplies(invoke: (HandlerId, Request) -> Invoked) {
    forall h, request :: invoke(h, request).Replied?
  }

  /** What a message leaves to send, as far as a conversation needs it. */
  lemma MessageSends(input: string, pos: nat, f: Fields, ctx: Context)
    requires pos < |input|
    ensures var m := Message(input, pos, f, ctx);
      m.failure.None? ==>
        && (m.fields.response.Some? ==> !m.fields.response.value.HeaderErrorReply?)
        && (!m.kill && m.fields.response.Some? ==> m.fields.response.value.HandlerReply?)
        && (AlwaysReplies(ctx.invoke) ==> m.fields.response.Some?)
  {
    var m := Message(input, pos, f, ctx);
    MessageReplies(input, pos, f, ctx);
    if m.failure.None? && m.fields.handler.Some? && AlwaysReplies(ctx.invoke) {
      assert ctx.invoke(m.fields.handler.value, m.fields.request.value).Replied?;
    }
  }

  lemma PrependHandlerReply(x: Reply, c: Conversation)
    requires x.HandlerReply? && WellReplied(c)
    ensures WellReplied(Prepend([x], c))
  {
    var d := Prepend([x], c);
    assert forall i :: 1 <= i < |d.sent| ==> d.sent[i] == c.sent[i - 1];
  }

  /**
   * Every connection is well replied, whatever the client sends; when the
   * application handlers always return a response, something is sent before
   * any kill.
   */
  lemma {:induction false} ConversationReplies(input: string, pos: nat, f: Fields, ctx: Context)
    requires pos <= |input|
    ensures WellReplied(Converse(input, pos, f, ctx))
    ensures AlwaysReplies(ctx.invoke) && Converse(input, pos, f, ctx).ending == Killed ==> |Converse(input, pos, f, ctx).sent| > 0
    decreases |input| - pos
  {
    if pos < |input| {
      var m := Message(input, pos, f, ctx);
      MessageSends(input, pos, f, ctx);
      ConverseStep(input, pos, f, ctx);
      if m.failure.None? && !m.kill && m.fields.response.Some? {
        ConversationReplies(input, m.pos, m.fields, ctx);
        PrependHandlerReply(m.fields.response.value, Converse(input, m.pos, m.fields, ctx));
      }
    }
  }

  /**
   * An application handler that returns null ends the connection with
   * nothing sent for that message.
   */
  lemma NullResponseClosesSilently(input: string, pos: nat, f: Fields, ctx: Context)
    requires pos < |input|
    ensures var m := Message(input, pos, f, ctx);
      m.failure.None? && m.fields.handler.Some? && m.fields.request.Some?
        && ctx.invoke(m.fields.handler.value, m.fields.request.value).NullResponse? ==>
      Converse(input, pos, f, ctx) == Conversation([], Killed, m.fields)
  {
    MessageReplies(input, pos, f, ctx);
    ConverseStep(input, pos, f, ctx);
  }

  // ---------------------------------------------------------------- the handler object

  class RequestHandler {
    /** The routing tables of the server's EndPointsManager, shared with it. */
    const get: EndPointsMethodGroup
    const post: EndPointsMethodGroup
    /** HttpUtility.UrlDecode. */
    const decode: string -> string
    /** What the application handlers registered with the server do. */
    const invoke: (HandlerId, Request) -> Invoked

    var isBusy: bool
    var request: Option<Request>
    var response: Option<Reply>
    var handler: Option<HandlerId>
    var filters: Option<Filter>
    var url: string
    const headers: Dictionary

    ghost predicate Valid()
      reads this, headers
    {
      headers.Valid()
    }

    function State(): Fields
      reads this, headers
    {
      Fields(response, handler, url, filters, request, headers.entries)
    }

    function Ctx(): Context
      reads get, post
    {
      Context(get.handlers, post.handlers, decode, invoke)
    }

    /** A handler over the server's routing tables; a fresh handler is not busy. */
    constructor (get: EndPointsMethodGroup, post: EndPointsMethodGroup, decode: string -> string, invoke: (HandlerId, Request) -> Invoked)
      ensures Valid() && fresh(headers)
      ensures this.get == get && this.post == post && this.decode == decode && this.invoke == invoke
      ensures !isBusy && State() == Fields(None, None, "", None, None, [])
    {
      this.get := get;
      this.post := post;
      this.decode := decode;
      this.invoke := invoke;
      isBusy := false;
      request := None;
      response := None;
      handler := None;
      filters := None;
      url := "";
      headers := new Dictionary();
    }

    /** GetLock: claim the handler if it is free. */
    method GetLock() returns (ok: bool)
      modifies this`isBusy
      ensures ok <==> !old(isBusy)
      ensures isBusy
      ensures State() == old(State())
    {
      if !isBusy {
        isBusy := true;
        return true;
      }
      return false;
    }

    method ParseRoot(line: string) returns (ok: bool, failure: Option<Failure>)
      modifies this
      ensures RootStep(State(), ok, failure) == ParseRootSpec(line, old(State()), Ctx())
    {
      ghost var f := State();
      var index := IndexOf(line, ' ');
      if index == -1 {
        assert ParseRootSpec(line, f, Ctx()) == RootStep(f, false, Some(NoSpaceInRequestLine));
        return false, Some(NoSpaceInRequestLine);
      }
      var verb := line[..index];
      var routes: EndPointsMethodGroup;
      if verb == "GET" {
        routes := get;
      } else if verb == "POST" {
        routes := post;
      } else {
        assert ParseRootSpec(line, f, Ctx()) == RootStep(f.(response := Some(BadRequestReply)), false, None);
        response := Some(BadRequestReply);
        return false, None;
      }
      assert ParseRootSpec(line, f, Ctx()) == Versioned(line, index, f, routes.handlers, decode);
      ok, failure := ParseTarget(line, index, routes);
    }

    /** The rest of ParseRoot: cut the target before the last "HTTP/", decode it and look it up. */
    method ParseTarget(line: string, index: nat, routes: EndPointsMethodGroup) returns (ok: bool, failure: Option<Failure>)
      modifies this
      ensures RootStep(State(), ok, failure) == Versioned(line, index, old(State()), routes.handlers, decode)
    {
      ghost var f := State();
      var endIndex := LastIndexOf(line, "HTTP/");
      if endIndex < index + 1 {
        return false, Some(NoProtocolVersion);
      }
      var target := SplitQuery(decode(line[index + 1..endIndex]));
      ok, failure := RouteTo(target, routes);
    }

    /** The route lookup at the end of ParseRoot. */
    method RouteTo(target: Target, routes: EndPointsMethodGroup) returns (ok: bool, failure: Option<Failure>)
      modifies this
      ensures RootStep(State(), ok, failure) == Route(target, old(State()), routes.handlers)
    {
      ghost var f := State();
      url := target.path;
      filters := target.filters;
      handler := routes.TryGet(url);
      ghost var g := f.(url := target.path, filters := target.filters, handler := handler);
      assert State() == g;
      if handler.None? {
        response := Some(NotFoundReply);
        assert Route(target, f, routes.handlers) == RootStep(g.(response := Some(NotFoundReply)), false, None);
        return false, None;
      }
      assert Route(target, f, routes.handlers) == RootStep(g, true, None);
      return true, None;
    }

    method ParseHeader(line: string) returns (ok: bool, failure: Option<Failure>)
      requires Valid()
      modifies this`response, headers
      ensures Valid()
      ensures HeaderStep(State(), ok, failure) == ParseHeaderSpec(line, old(State()))
    {
      ghost var f := State();
      var split := SplitAtColon(line);
      if split.Some? {
        var e := split.value;
        var added := headers.Add(e.key, e.value);
        if !added {
          assert State() == f;
          return false, Some(DuplicateHeader);
        }
        assert State() == f.(headers := f.headers + [e]);
        return true, None;
      }
      response := Some(HeaderErrorReply(line));
      return false, None;
    }

    /** The header loop of HandleAsync. */
    method ReadHeaderLines(input: string, pos: nat, kill0: bool) returns (next: nat, kill: bool, failure: Option<Failure>)
      requires Valid() && pos <= |input|
      modifies this, headers
      ensures Valid()
      ensures Progress(State(), next, kill, failure) == ReadHeaders(input, Progress(old(State()), pos, kill0, None))
    {
      next, kill, failure := pos, kill0, None;
      var blank := false;
      while !blank && next < |input| && !kill && failure.None?
        invariant Valid() && next <= |input|
        invariant blank ==> Progress(State(), next, kill, failure) == ReadHeaders(input, Progress(old(State()), pos, kill0, None))
        invariant !blank ==> ReadHeaders(input, Progress(State(), next, kill, failure)) == ReadHeaders(input, Progress(old(State()), pos, kill0, None))
        decreases |input| - next, if blank then 0 else 1
      {
        var line := ReadLine(input, next);
        if IsNullOrWhiteSpace(Some(line.text)) {
          next := line.next;
          blank := true;
        } else {
          var ok, f := ParseHeader(line.text);
          next, kill, failure := line.next, !ok, f;
        }
      }
    }

    /** The Content-Length step of HandleAsync. */
    method ReadContent(input: string, pos: nat, kill0: bool) returns (next: nat, kill: bool, failure: Option<Failure>)
      requires Valid() && pos <= |input|
      modifies this`request
      ensures Valid()
      ensures Progress(State(), next, kill, failure) == ReadBody(input, Progress(old(State()), pos, kill0, None))
    {
      var length := headers.TryGetValue("Content-Length");
      if length.Some? {
        next, kill, failure := ReadSized(input, pos, kill0, length.value);
      } else {
        next, kill, failure := pos, kill0, None;
        request := Some(NewRequest(filters, headers.entries, None));
      }
    }

    /** The Content-Length step once the header is found. */
    method ReadSized(input: string, pos: nat, kill0: bool, length: string) returns (next: nat, kill: bool, failure: Option<Failure>)
      requires pos <= |input|
      modifies this`request
      ensures Progress(State(), next, kill, failure) == Sized(input, Progress(old(State()), pos, kill0, None), length)
    {
      next, kill, failure := pos, kill0, None;
      var n := ParseLong(length);
      if n.None? {
        kill := true;
        return;
      }
      if n.value < 0 {
        failure := Some(NegativeContentLength);
        return;
      }
      if n.value > MaxArrayLength {
        failure := Some(BodyTooLarge);
        return;
      }
      var block := ReadBlock(input, pos, n.value);
      request := Some(NewRequest(filters, headers.entries, Some(block.text)));
      next := block.next;
    }

    /** The handler step of HandleAsync. */
    method Invoke(kill: bool) returns (failure: Option<Failure>)
      requires Valid()
      modifies this, headers
      ensures Valid()
      ensures Progress(State(), 0, kill, failure) == Dispatch(Progress(old(State()), 0, kill, None), invoke)
    {
      failure := None;
      if handler.Some? {
        if request.None? {
          return Some(NoRequest);
        }
        if kill {
          headers.Set("Connection", "close");
        }
        var shared := request.value.(headers := headers.entries);
        request := Some(shared);
        match invoke(handler.value, shared)
        case Replied =>
          response := Some(HandlerReply(handler.value, shared));
        case NullResponse =>
          response := None;
        case HandlerThrew =>
          failure := Some(HandlerFailed);
      }
    }

    /** One iteration of the message loop. */
    method ReadMessage(input: string, pos: nat) returns (next: nat, kill: bool, failure: Option<Failure>)
      requires Valid() && pos < |input|
      modifies this, headers
      ensures Valid()
      ensures Progress(State(), next, kill, failure) == Message(input, pos, old(State()), Ctx())
    {
      ghost var reset := Reset(old(State()));
      response := None;
      handler := None;
      headers.Clear();
      assert State() == reset;
      var line := ReadLine(input, pos);
      var ok;
      ok, failure := ParseRoot(line.text);
      next, kill := line.next, false;
      if failure.Some? {
        return;
      }
      next, kill, failure := ReadRest(input, next, !ok);
    }

    /** The headers, body and dispatch of one message. */
    method ReadRest(input: string, pos: nat, kill0: bool) returns (next: nat, kill: bool, failure: Option<Failure>)
      requires Valid() && pos <= |input|
      modifies this, headers
      ensures Valid()
      ensures Progress(State(), next, kill, failure) == AfterRoot(input, Progress(old(State()), pos, kill0, None), invoke)
    {
      ghost var p := Progress(State(), pos, kill0, None);
      next, kill, failure := ReadHeaderLines(input, pos, kill0);
      ghost var h := Progress(State(), next, kill, failure);
      assert h == ReadHeaders(input, p);
      if failure.Some? {
        assert AfterRoot(input, p, invoke) == h;
        return;
      }
      assert AfterRoot(input, p, invoke) == AfterHeaders(input, h, invoke);
      next, kill, failure := ReadContent(input, next, kill);
      ghost var b := Progress(State(), next, kill, failure);
      assert b == ReadBody(input, h);
      if failure.Some? {
        assert AfterHeaders(input, h, invoke) == b;
        return;
      }
      assert AfterHeaders(input, h, invoke) == Dispatch(b, invoke);
      DispatchAnyPos(b.(pos := 0), next, invoke);
      failure := Invoke(kill);
      assert Progress(State(), next, kill, failure) == Dispatch(b, invoke);
    }

    /** One turn of the message loop: the reply sent, if any, and the ending when the loop stops here. */
    method Serve(input: string, pos: nat) returns (reply: Option<Reply>, next: nat, ending: Option<Ending>)
      requires Valid() && pos < |input|
      modifies this, headers
      ensures Valid() && pos < next <= |input|
      ensures ending.None? ==> reply.Some?
      ensures ending.None? ==>
        Converse(input, pos, old(State()), Ctx()) == Prepend([reply.value], Converse(input, next, State(), Ctx()))
      ensures ending.Some? ==>
        Converse(input, pos, old(State()), Ctx()) == Conversation(if reply.Some? then [reply.value] else [], ending.value, State())
    {
      ghost var m := Message(input, pos, State(), Ctx());
      ConverseStep(input, pos, State(), Ctx());
      var kill, failure;
      next, kill, failure := ReadMessage(input, pos);
      assert Progress(State(), next, kill, failure) == m;
      if failure.Some? {
        return None, next, Some(Threw(failure.value));
      }
      reply := response;
      if reply.None? || kill {
        return reply, next, Some(Killed);
      }
      ending := None;
    }

    /**
     * HandleAsync over the text the client sends: the replies sent in order,
     * why the loop stopped, and the busy flag released whatever happened.
     */
    method HandleAsync(input: string) returns (sent: seq<Reply>, ending: Ending)
      requires Valid()
      modifies this, headers
      ensures Valid() && !isBusy
      ensures Conversation(sent, ending, State()) == Converse(input, 0, old(State()), Ctx())
    {
      ghost var whole := Converse(input, 0, State(), Ctx());
      var pos := 0;
      sent := [];
      ending := StreamEnded;
      var done := false;
      while !done
        invariant Valid() && pos <= |input|
        invariant done ==> whole == Conversation(sent, ending, State())
        invariant !done ==> whole == Prepend(sent, Converse(input, pos, State(), Ctx()))
        decreases |input| - pos, if done then 0 else 1
      {
        if pos == |input| {
          ConverseAtEnd(input, State(), Ctx());
          assert sent + [] == sent;
          ending := StreamEnded;
          done := true;
        } else {
          ghost var before := State();
          var reply, next, stop := Serve(input, pos);
          if stop.Some? {
            var last := if reply.Some? then [reply.value] else [];
            assert Converse(input, pos, before, Ctx()) == Conversation(last, stop.value, State());
            PrependConversation(sent, last, stop.value, State());
            sent := sent + last;
            ending := stop.value;
            done := true;
          } else {
            PrependTwice(sent, [reply.value], Converse(input, next, State(), Ctx()));
            sent := sent + [reply.value];
            pos := next;
          }
        }
      }
      isBusy := false;
    }
  }
}
