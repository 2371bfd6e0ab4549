/**
 * Response: a status code, a header dictionary, an optional body and the
 * serialisation to HTTP/1.1 text, with its body cache.
 */
module Responses {
  import opened Strings
  import opened Dictionaries
  import opened MimeTypes
  import opened RequestParser

  /** The HttpStatusCode values an application handler is modelled to use. */
  datatype StatusCode =
    | OK | Created | Accepted | NoContent
    | NotModified
    | BadRequest | Unauthorized | Forbidden | NotFound | MethodNotAllowed | RequestTimeout | Conflict
    | InternalServerError | NotImplemented | ServiceUnavailable

  /** (int)StatusCode. */
  function Code(s: StatusCode): nat {
    match s
    case OK => 200
    case Created => 201
    case Accepted => 202
    case NoContent => 204
    case NotModified => 304
    case BadRequest => 400
    case Unauthorized => 401
    case Forbidden => 403
    case NotFound => 404
    case MethodNotAllowed => 405
    case RequestTimeout => 408
    case Conflict => 409
    case InternalServerError => 500
    case NotImplemented => 501
    case ServiceUnavailable => 503
  }

  /** StatusCode.ToString(): the enumeration member's name. */
  function Name(s: StatusCode): (n: string)
    ensures n != [] && 'A' <= n[0] <= 'Z'
  {
    match s
    case OK => "OK"
    case Created => "Created"
    case Accepted => "Accepted"
    case NoContent => "NoContent"
    case NotModified => "NotModified"
    case BadRequest => "BadRequest"
    case Unauthorized => "Unauthorized"
    case Forbidden => "Forbidden"
    case NotFound => "NotFound"
    case MethodNotAllowed => "MethodNotAllowed"
    case RequestTimeout => "RequestTimeout"
    case Conflict => "Conflict"
    case InternalServerError => "InternalServerError"
    case NotImplemented => "NotImplemented"
    case ServiceUnavailable => "ServiceUnavailable"
  }

  /** Every modelled code is a three-digit status of its class, and the codes are distinct. */
  lemma CodesDistinct(a: StatusCode, b: StatusCode)
    ensures 100 <= Code(a) < 600
    ensures Code(a) == Code(b) <==> a == b
  {
  }

  /** No two modelled codes share a name. */
  lemma NamesDistinct(a: StatusCode, b: StatusCode)
    ensures Name(a) == Name(b) <==> a == b
  {
  }

  /**
   * The StatusCodeDescription the constructor stores: the caller's text,
   * unless it is null or white space, in which case the code's name.
   */
  function Description(code: StatusCode, given: Option<string>): (d: string)
    ensures !IsNullOrWhiteSpace(Some(d))
    ensures !IsNullOrWhiteSpace(given) ==> d == given.value
    ensures IsNullOrWhiteSpace(given) ==> d == Name(code)
  {
    if !IsNullOrWhiteSpace(given) then given.value
    else
      assert !IsWhiteSpace(Name(code)[0]);
      Name(code)
  }

  /**
   * What Body holds. ValueBody is a value-type object, carried as the text
   * its ToString() gives; ObjectBody is any other non-string object, carried
   * as the text its ToJson() gives ("" where ToJson gives null).
   */
  datatype Body = StringBody(text: string) | ValueBody(text: string) | ObjectBody(json: string)

  /** The text a body is written as. */
  function BodyText(b: Body): string {
    match b
    case StringBody(t) => t
    case ValueBody(t) => t
    case ObjectBody(j) => j
  }

  /** What ToHttpResponse reads from its surroundings: DateTime.Now.ToString(), Environment.NewLine and the encoding's WebName. */
  datatype Env = Env(now: string, newline: string, webName: string)

  /** The headers ToHttpResponse writes itself and so leaves out of the custom-header loop. */
  const ReservedHeaders: set<string> := {"Date", "Server", "Connection", "Content-Type", "Content-Length"}

  /** A header line without its line break, "key: value". */
  function HeaderLine(e: Entry): string {
    e.key + ": " + e.value
  }

  /** GetFormattedHeader: the caller's value for key when the dictionary has one, the default otherwise. */
  function FormattedHeader(hs: seq<Entry>, key: string, default: string): (line: string)
    ensures Find(hs, key).Some? ==> line == HeaderLine(Entry(key, Find(hs, key).value))
    ensures Find(hs, key).None? ==> line == HeaderLine(Entry(key, default))
  {
    var v := Find(hs, key);
    key + ": " + (if v.Some? then v.value else default)
  }

  /** The entries the header loop writes, in dictionary order. */
  function CustomHeaders(hs: seq<Entry>): seq<Entry> {
    if hs == [] then []
    else if hs[0].key in ReservedHeaders then CustomHeaders(hs[1..])
    else [hs[0]] + CustomHeaders(hs[1..])
  }

  /** Each entry as a line followed by the line break. */
  function Lines(es: seq<Entry>, newline: string): string {
    if es == [] then "" else HeaderLine(es[0]) + newline + Lines(es[1..], newline)
  }

  /** The header loop writes exactly the entries whose key is not reserved. */
  lemma {:induction false} CustomHeadersExact(hs: seq<Entry>, e: Entry)
    ensures e in CustomHeaders(hs) <==> e in hs && e.key !in ReservedHeaders
  {
    if hs != [] {
      CustomHeadersExact(hs[1..], e);
      assert hs == [hs[0]] + hs[1..];
    }
  }

  lemma {:induction false} CustomHeadersSnoc(hs: seq<Entry>, e: Entry)
    ensures CustomHeaders(hs + [e]) == CustomHeaders(hs) + (if e.key in ReservedHeaders then [] else [e])
  {
    if hs != [] {
      assert (hs + [e])[1..] == hs[1..] + [e];
      CustomHeadersSnoc(hs[1..], e);
    }
  }

  lemma {:induction false} LinesSnoc(es: seq<Entry>, e: Entry, newline: string)
    ensures Lines(es + [e], newline) == Lines(es, newline) + HeaderLine(e) + newline
  {
    if es != [] {
      assert (es + [e])[1..] == es[1..] + [e];
      LinesSnoc(es[1..], e, newline);
    }
  }

  /** Setting a reserved header does not change what the header loop writes. */
  lemma {:induction false} CustomHeadersPutReserved(hs: seq<Entry>, key: string, value: string)
    requires key in ReservedHeaders
    ensures CustomHeaders(Put(hs, key, value)) == CustomHeaders(hs)
  {
    if hs != [] && hs[0].key != key {
      CustomHeadersPutReserved(hs[1..], key, value);
      assert Put(hs, key, value)[1..] == Put(hs[1..], key, value);
    }
  }

  /** "HTTP/1.1 <number> <name>": the status line prints the code's name, not the description. */
  function StatusLine(code: StatusCode): string {
    "HTTP/1.1 " + NatToString(Code(code)) + " " + Name(code)
  }

  /** Everything before the body section: status line, Date, Server, Connection and the custom headers. */
  function Head(code: StatusCode, hs: seq<Entry>, env: Env): string {
    StatusLine(code) + env.newline
    + FormattedHeader(hs, "Date", env.now) + env.newline
    + FormattedHeader(hs, "Server", "Potato 123") + env.newline
    + FormattedHeader(hs, "Connection", "Closed") + env.newline
    + Lines(CustomHeaders(hs), env.newline)
  }

  /** The Content-Type value written for a body of the given kind. */
  function ContentType(t: MimeType, webName: string): string {
    MimeString(t) + "; charset=" + webName
  }

  /** The body section ToHttpResponse caches: the length line, a blank line, the text. */
  function BodySection(text: string): string {
    HeaderLine(Entry("Content-Length", NatToString(|text|))) + "\n\n" + text
  }

  /** The mutable part of a Response: Type, the headers, Body and the body cache. */
  datatype Snapshot = Snapshot(mime: MimeType, headers: seq<Entry>, body: Option<Body>, cache: Option<string>)

  /** The text ToHttpResponse returns (None: the indexer threw KeyNotFoundException) and the state it leaves. */
  datatype Serialized = Serialized(text: Option<string>, after: Snapshot)

  /** ToHttpResponse as a function of the response's state. */
  function Render(code: StatusCode, s: Snapshot, env: Env): Serialized {
    var head := Head(code, s.headers, env);
    if s.cache.Some? then
      var contentType := Find(s.headers, "Content-Type");
      if contentType.None? then Serialized(None, s)
      else Serialized(Some(head + HeaderLine(Entry("Content-Type", contentType.value)) + env.newline + s.cache.value), s)
    else if s.body.Some? then
      var mime := if s.body.value.ObjectBody? then JSon else s.mime;
      var contentType := ContentType(mime, env.webName);
      var section := BodySection(BodyText(s.body.value));
      Serialized(
        Some(head + HeaderLine(Entry("Content-Type", contentType)) + env.newline + section),
        Snapshot(mime, Put(s.headers, "Content-Type", contentType), s.body, Some(section)))
    else
      Serialized(Some(head + HeaderLine(Entry("Content-Length", "0")) + env.newline + env.newline), s)
  }

  /** Recording a Content-Type does not change the head: that header is written after it. */
  lemma HeadPutContentType(code: StatusCode, hs: seq<Entry>, contentType: string, env: Env)
    ensures Head(code, Put(hs, "Content-Type", contentType), env) == Head(code, hs, env)
  {
    PutFind(hs, "Content-Type", contentType, "Date");
    PutFind(hs, "Content-Type", contentType, "Server");
    PutFind(hs, "Content-Type", contentType, "Connection");
    CustomHeadersPutReserved(hs, "Content-Type", contentType);
  }

  /**
   * Serialising a second time, in the same surroundings, writes the same text
   * and changes nothing more: the first call only caches the body section and
   * records the Content-Type it wrote.
   */
  lemma RenderStable(code: StatusCode, s: Snapshot, env: Env)
    requires Render(code, s, env).text.Some?
    ensures Render(code, Render(code, s, env).after, env) == Serialized(Render(code, s, env).text, Render(code, s, env).after)
  {
    if s.cache.None? && s.body.Some? {
      var mime := if s.body.value.ObjectBody? then JSon else s.mime;
      var contentType := ContentType(mime, env.webName);
      var hs := Put(s.headers, "Content-Type", contentType);
      var section := BodySection(BodyText(s.body.value));
      var after := Snapshot(mime, hs, s.body, Some(section));
      var text := Head(code, s.headers, env) + HeaderLine(Entry("Content-Type", contentType)) + env.newline + section;
      assert Render(code, s, env) == Serialized(Some(text), after);
      PutFind(s.headers, "Content-Type", contentType, "Content-Type");
      HeadPutContentType(code, s.headers, contentType, env);
      assert Render(code, after, env) == Serialized(Some(text), after);
    }
  }

  /** Only the Content-Type header is changed by serialising. */
  lemma RenderKeepsOtherHeaders(code: StatusCode, s: Snapshot, env: Env, key: string)
    requires key != "Content-Type"
    ensures Find(Render(code, s, env).after.headers, key) == Find(s.headers, key)
  {
    if s.cache.None? && s.body.Some? {
      var mime := if s.body.value.ObjectBody? then JSon else s.mime;
      PutFind(s.headers, "Content-Type", ContentType(mime, env.webName), key);
    }
  }

  /** Once cached, the body section is written again whatever Body and Type have become. */
  lemma CacheFreezesBody(code: StatusCode, s: Snapshot, env: Env, body: Option<Body>, mime: MimeType)
    requires s.cache.Some?
    ensures Render(code, s.(body := body, mime := mime), env).text == Render(code, s, env).text
  {
  }

  /** The state a first serialisation of a body leaves: Type settled, Content-Type recorded, the body section cached. */
  lemma RenderFirstBody(code: StatusCode, s: Snapshot, env: Env)
    requires s.cache.None? && s.body.Some?
    ensures var mime := if s.body.value.ObjectBody? then JSon else s.mime;
      Render(code, s, env).after
        == Snapshot(mime, Put(s.headers, "Content-Type", ContentType(mime, env.webName)), s.body, Some(BodySection(BodyText(s.body.value))))
  {
  }

  /** A first serialisation of an object body switches Type to JSon and records a JSON Content-Type. */
  lemma ObjectBodyIsJson(code: StatusCode, s: Snapshot, env: Env, json: string)
    requires s.cache.None? && s.body == Some(ObjectBody(json))
    ensures Render(code, s, env).after.mime == JSon
    ensures Find(Render(code, s, env).after.headers, "Content-Type") == Some("application/json; charset=" + env.webName)
    ensures Render(code, s, env).after.cache == Some(BodySection(json))
  {
    RenderFirstBody(code, s, env);
    var contentType := ContentType(JSon, env.webName);
    PutFind(s.headers, "Content-Type", contentType, "Content-Type");
    assert Find(Render(code, s, env).after.headers, "Content-Type") == Some(contentType);
    JsonContentType(env.webName);
  }

  lemma JsonContentType(webName: string)
    ensures ContentType(JSon, webName) == "application/json; charset=" + webName
  {
    ParserEntries();
  }

  /** A string or value body keeps the Type the caller set. */
  lemma PlainBodyKeepsType(code: StatusCode, s: Snapshot, env: Env)
    requires s.cache.None? && s.body.Some? && !s.body.value.ObjectBody?
    ensures Render(code, s, env).after.mime == s.mime
    ensures Find(Render(code, s, env).after.headers, "Content-Type") == Some(ContentType(s.mime, env.webName))
  {
    RenderFirstBody(code, s, env);
    PutFind(s.headers, "Content-Type", ContentType(s.mime, env.webName), "Content-Type");
  }

  /** Without a body and a cache the response ends with a zero Content-Length and a blank line, and nothing is cached. */
  lemma NoBodyZeroLength(code: StatusCode, s: Snapshot, env: Env)
    requires s.cache.None? && s.body.None?
    ensures Render(code, s, env).after == s
    ensures Render(code, s, env).text == Some(Head(code, s.headers, env) + HeaderLine(Entry("Content-Length", "0")) + env.newline + env.newline)
  {
  }

  /** On the cached path a missing Content-Type header is the KeyNotFoundException of the indexer. */
  lemma CachedNeedsContentType(code: StatusCode, s: Snapshot, env: Env)
    requires s.cache.Some?
    ensures Render(code, s, env).text.None? <==> "Content-Type" !in Keys(s.headers)
  {
  }

  /** The Content-Length line reads back, through the request-side parsers, as the body's length. */
  lemma ContentLengthReadsBack(text: string)
    requires |text| <= LongMax
    ensures SplitHeader(HeaderLine(Entry("Content-Length", NatToString(|text|)))) == Some(Entry("Content-Length", NatToString(|text|)))
    ensures ParseLong(NatToString(|text|)) == Some(|text|)
  {
    var n := NatToString(|text|);
    DigitsTrimmed(n);
    ContentLengthName();
    FormattedHeaderRoundTrip("Content-Length", n);
    ParseLongNatToString(|text|);
  }

  /** The Response object. */
  class Response {
    const statusCode: StatusCode
    const statusCodeDescription: string
    var mime: MimeType
    const headers: Dictionary
    var body: Option<Body>
    var bodyCache: Option<string>
    /** The StringBuilder ToHttpResponse writes into. */
    var builder: string

    ghost predicate Valid()
      reads this, headers
    {
      headers.Valid()
    }

    function State(): Snapshot
      reads this, headers
    {
      Snapshot(mime, headers.entries, body, bodyCache)
    }

    /** new Response(statusCode, statusCodeDescription); Response() is OK with no description. */
    constructor (code: StatusCode, description: Option<string>)
      ensures Valid() && fresh(headers)
      ensures statusCode == code && statusCodeDescription == Description(code, description)
      ensures State() == Snapshot(Text, [], None, None) && builder == ""
    {
      statusCode := code;
      statusCodeDescription := Description(code, description);
      mime := Text;
      headers := new Dictionary();
      body := None;
      bodyCache := None;
      builder := "";
    }

    /** The OK property. */
    predicate IsOK()
      reads this
      ensures IsOK() <==> Code(statusCode) == 200
    {
      statusCode == StatusCode.OK
    }

    /** The status line, the fixed headers and the header loop of ToHttpResponse. */
    method WriteHead(env: Env) returns (text: string)
      ensures text == Head(statusCode, headers.entries, env)
    {
      var es := headers.entries;
      var lines := "";
      var i := 0;
      while i < |es|
        invariant 0 <= i <= |es|
        invariant lines == Lines(CustomHeaders(es[..i]), env.newline)
      {
        var e := es[i];
        assert es[..i + 1] == es[..i] + [e];
        CustomHeadersSnoc(es[..i], e);
        if e.key !in ReservedHeaders {
          LinesSnoc(CustomHeaders(es[..i]), e, env.newline);
          lines := lines + HeaderLine(e) + env.newline;
        } else {
          assert CustomHeaders(es[..i + 1]) == CustomHeaders(es[..i]);
        }
        i := i + 1;
      }
      assert es[..i] == es;
      text := StatusLine(statusCode) + env.newline
        + FormattedHeader(es, "Date", env.now) + env.newline
        + FormattedHeader(es, "Server", "Potato 123") + env.newline
        + FormattedHeader(es, "Connection", "Closed") + env.newline
        + lines;
    }

    /** ToHttpResponse; None is the KeyNotFoundException of the cached path. */
    method ToHttpResponse(env: Env) returns (r: Option<string>)
      requires Valid()
      modifies this, headers
      ensures Valid()
      ensures Serialized(r, State()) == Render(statusCode, old(State()), env)
      ensures builder == if r.Some? then r.value else Head(statusCode, headers.entries, env)
    {
      builder := WriteHead(env);
      if bodyCache.Some? {
        var contentType := headers.TryGetValue("Content-Type");
        if contentType.None? {
          return None;
        }
        builder := builder + HeaderLine(Entry("Content-Type", contentType.value)) + env.newline;
        builder := builder + bodyCache.value;
      } else if body.Some? {
        var text := BodyText(body.value);
        if body.value.ObjectBody? {
          mime := JSon;
        }
        var contentType := ContentType(mime, env.webName);
        headers.Set("Content-Type", contentType);
        builder := builder + HeaderLine(Entry("Content-Type", contentType)) + env.newline;
        bodyCache := Some(BodySection(text));
        builder := builder + bodyCache.value;
      } else {
        builder := builder + HeaderLine(Entry("Content-Length", "0")) + env.newline;
        builder := builder + env.newline;
      }
      r := Some(builder);
    }
  }

  /** The shared BadRequest, NotFound and NotConnected responses: serialising them changes nothing, so sharing them is safe. */
  lemma StaticResponsesUnchanged(code: StatusCode, env: Env)
    ensures Render(code, Snapshot(Text, [], None, None), env).after == Snapshot(Text, [], None, None)
    ensures Render(code, Snapshot(Text, [], None, None), env).text
      == Some(StatusLine(code) + env.newline
              + HeaderLine(Entry("Date", env.now)) + env.newline
              + HeaderLine(Entry("Server", "Potato 123")) + env.newline
              + HeaderLine(Entry("Connection", "Closed")) + env.newline
              + HeaderLine(Entry("Content-Length", "0")) + env.newline + env.newline)
  {
    var hs: seq<Entry> := [];
    assert Find(hs, "Date").None? && Find(hs, "Server").None? && Find(hs, "Connection").None?;
    assert Lines(CustomHeaders(hs), env.newline) == "";
    var fixed := StatusLine(code) + env.newline
      + HeaderLine(Entry("Date", env.now)) + env.newline
      + HeaderLine(Entry("Server", "Potato 123")) + env.newline
      + HeaderLine(Entry("Connection", "Closed")) + env.newline;
    assert Head(code, hs, env) == fixed + "";
    assert fixed + "" == fixed;
  }

  /** NotConnected differs from BadRequest only in its description, which is never written. */
  lemma NotConnectedLooksLikeBadRequest(env: Env)
    ensures Description(BadRequest, Some("NotConnected")) == "NotConnected"
    ensures Description(BadRequest, None) == "BadRequest"
  {
    assert !IsWhiteSpace("NotConnected"[0]);
  }
}
