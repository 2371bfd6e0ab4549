# REST: the sequential HTTP/1.1 core, modelled in Dafny

The model covers the part of the C# library REST that turns text into
decisions. It leaves out the sockets, threads and loggers around that part.

- **Routing tables** (`EndPointsMethodGroup`). One table per method (GET and POST). Each table maps a path, trimmed of `' '`, `'\t'`, `'\\'` and `'/'`, to an opaque handler id. Registering the same trimmed path twice is refused.
- **Header lines** (`RequestParser.TryParseHeader`, `RequestHandler.ParseHeader`). A header line is split at its first `':'` and both sides are trimmed. It goes into an insertion-ordered `Dictionary<string, string>`, where adding a name already present throws.
- **The request handler** (`RequestHandler`):
  - The busy flag and `GetLock`.
  - `ParseRoot`: the method, the target cut before the last `"HTTP/"`, the query after `'?'`, and the route lookup.
  - `ParseHeader`.
  - The message loop of `HandleAsync`, run over the whole text a client sends. Lines are read with `StreamReader.ReadLine` semantics, and the body is read with `ReadBlock`.
  - The result is the sequence of replies sent and why the loop stopped: end of stream, kill, or exception.
- **The server's handler pool** (`Server`):
  - `Get` and `POST` registration.
  - `Start` and `Stop` clearing the pool.
  - The accept step, which claims the first free handler or appends a new one.
- **Messages** (`Request`, `Response`, `MimeTypeParser`):
  - The normalisation in the `Request` constructor, and its header getters.
  - The `Response` constructor and `ToHttpResponse`. The model covers its fixed and custom headers, the Content-Type/Content-Length section and the body cache that freezes the first serialisation.
  - The two MIME tables.
- **The minifier** (`Minifier`):
  - The index-walking helpers and `GetRows`.
  - `TrimSpacesAround` and `ClearJavaScriptCode`.
  - The `HTML`, `CSS` and `JavaScript` passes.

The model keeps each file's own form:

- **Classes with in-place updates.** Objects whose fields change are Dafny classes whose methods update those fields:
  - `Dictionary`, `EndPointsMethodGroup`, `Response`, `RequestHandler`, `Server`.
  - A `StringBuilder` for the minifier passes.
- **Methods proved against functions.** Each such method is proved equal to a specification function of the old state. The properties are proved as lemmas about those functions.
- **Loops as methods.** The minifier's index loops are methods with `while` loops. Each is proved against a function that takes one turn of the loop at a time.
- **Outcomes of the passes.** A pass that indexes past the end of its text ends in `OutOfRange`. One whose loop comes back to the position where its turn began ends in `Diverges`. In the running program such a loop grows its output each turn until memory runs out; `Diverges` stands for that end.

These modelling choices matter for reading the contracts:

- **Strings and dictionaries.**
  - A C# `string` is `seq<char>`, one Dafny character per UTF-16 code unit.
  - `char.IsWhiteSpace` is .NET's table of 25 white-space characters.
  - A `Dictionary` is a sequence of entries with unique keys, kept in insertion order. The order is the one the header loop of `ToHttpResponse` writes in.
- **What the surroundings supply:**
  - `HttpUtility.UrlDecode` is a parameter of the handler.
  - What each application handler (a `Func<Request, Task<Response>>`) does with a request is a parameter `invoke` of the server and of every handler: it returns a response, returns null, or throws.
  - `DateTime.Now.ToString()`, `Environment.NewLine` and `Encoding.WebName` are fields of `Env`.
  - The text `ToJson` produces is carried inside an object body.
  - `ParseQueryString(q).HasKeys()` is "q contains `'='`". A pair without `'='` is stored under the null key.
- **Exceptions.** The exceptions of the message loop that the model raises are `Failure` values:
  - `Substring` with a negative length.
  - `Dictionary.Add` of a name already present.
  - `new char[n]` with a negative `n`, or with `n` above 0x7FFFFFC7, the largest .NET array length.
  - A null `request`.
  - An exception of the application handler.

  A `Failure` ends the connection without a reply, as the `catch` in `HandleAsync` does.
- **Behaviours of the code worth knowing:**
  - A header line without `':'` sets a 400 response. The application handler's outcome then replaces it, because a handler is always set once the headers are read. So no 400 is sent for a bad header line (`RequestHandlers.MessageReplies`).
  - An application handler that returns null gets nothing sent for its message, and the connection ends (`RequestHandlers.NullResponseClosesSilently`).
  - A duplicate header name throws, which ends the connection without a reply. It is not stored.
  - A Content-Length that does not parse kills the connection. It is not read as 0. The request dispatched is then the one left from the previous message (`RequestHandlers.UnparseableContentLength`).
  - The end of the stream in the middle of the headers does not abort the message. The message is still dispatched with the headers read so far.
  - A short body is padded with `'\0'` up to the Content-Length.
  - The application handler is invoked even when the connection is marked for closing. `Connection: close` is first put into the request's headers.

## Model

| member | source | states |
|---|---|---|
| Strings.WhiteSpaceIsSet | REST/Utils/Minifier.cs:145 | the code-point test used for char.IsWhiteSpace holds exactly for the characters of the .NET white-space set |
| Strings.TrimStart | REST/Server/EndPointsMethodGroup.cs:33 | the result is no longer than s, every character dropped from the front is in cs, and the first character kept is not |
| Strings.TrimStartSuffix | REST/Server/EndPointsMethodGroup.cs:33 | what TrimStart keeps is the suffix of s of that length |
| Strings.TrimEnd | REST/Server/EndPointsMethodGroup.cs:33 | the result is a prefix of s, every character dropped from the end is in cs, and the last character kept is not |
| Strings.Trim | REST/Server/EndPointsMethodGroup.cs:33 | the trimmed string is empty or neither starts nor ends with a character of cs |
| Strings.TrimBounds | REST/Utils/RequestParser.cs:15 | Trim keeps a contiguous slice of s; every character before it and after it is in cs |
| Strings.TrimUnpadded | REST/Utils/RequestParser.cs:15 | a string that neither starts nor ends with a character of cs is its own Trim |
| Strings.TrimIdempotent | REST/Utils/Minifier.cs:15 | trimming twice gives the same as trimming once |
| Strings.TrimPadding | REST/Utils/Minifier.cs:15 | padding a string on either side with characters of cs does not change its Trim |
| Strings.IndexOf | REST/Utils/RequestParser.cs:12 | -1 exactly when c does not occur; otherwise an index holding c with no c before it |
| Strings.IndexOfFrom | REST/Utils/Minifier.cs:155 | -1 or an occurrence of sub at or after start, with no occurrence between start and it |
| Strings.LastIndexOf | REST/Server/RequestHandler.cs:197 | -1 or an occurrence of sub, with no occurrence after it |
| Strings.Split | REST/Utils/Minifier.cs:14 | at least one piece, and no piece contains the separator |
| Strings.SplitAppend | REST/Utils/Minifier.cs:14 | splitting two texts joined by the separator gives the pieces of the first, then those of the second |
| Strings.SplitJoin | REST/Utils/Minifier.cs:14 | joining the pieces of a Split with the separator gives back the string |
| Strings.ReplaceAbsent | REST/Utils/Minifier.cs:304-305 | Replace leaves a string without an occurrence of the pattern unchanged |
| Strings.ReplaceAppend | REST/Utils/Minifier.cs:304-305 | Replace works on two texts separately when no occurrence of the pattern straddles the point where they meet |
| Strings.NatToString | REST/Server/Response.cs:94 | the decimal text of a length is non-empty and made of digits |
| Strings.DigitsValueOfNatToString | REST/Server/Response.cs:94 | the digits NatToString prints have the printed number as their value |
| Strings.ParseLong | REST/Server/RequestHandler.cs:116 | a successful long.TryParse gives a value in the 64-bit signed range |
| Strings.ParseSigned | REST/Server/RequestHandler.cs:116 | a parsed number is in range and its text starts with a digit or a sign |
| Strings.ParseLongNatToString | REST/Server/RequestHandler.cs:116 | every length NatToString prints in the long range is read back by long.TryParse as itself |
| Dictionaries.Keys | REST/Server/Request.cs:21 | the key set holds exactly the keys of the entries |
| Dictionaries.Find | REST/Server/Response.cs:106 | TryGetValue finds a value exactly when the key is present, that value is stored under the key, and with unique keys it is the only one |
| Dictionaries.Put | REST/Server/Response.cs:91 | the indexer set appends a new key at the end, keeps the length for a present key, and leaves every entry of another key in place |
| Dictionaries.PutFind | REST/Server/Response.cs:91 | after the indexer set, the key reads the new value and every other key its old one |
| Dictionaries.PutKeepsKeys | REST/Server/RequestHandler.cs:141 | the indexer set overwrites in place: the key at every old position is unchanged |
| Dictionaries.PutUnique | REST/Server/RequestHandler.cs:141 | the indexer set keeps keys unique and adds exactly the key set |
| Dictionaries.Dictionary.constructor | REST/Server/RequestHandler.cs:53 | a new dictionary is empty |
| Dictionaries.Dictionary.Add | REST/Utils/RequestParser.cs:15 | Add succeeds exactly when the key is absent and then appends the entry; otherwise (the ArgumentException) nothing changes |
| Dictionaries.Dictionary.Set | REST/Server/Response.cs:91 | the indexer set leaves the entries Put gives and keeps keys unique |
| Dictionaries.Dictionary.Clear | REST/Server/RequestHandler.cs:97 | Clear leaves no entries |
| MimeTypes.ParserTotal | REST/Enums/MimeType.cs:8-50 | Parser has an entry for every one of the 14 MimeType values |
| MimeTypes.MimeString | REST/Enums/MimeType.cs:31-50 | indexing Parser never fails and reads its entry |
| MimeTypes.ParserEntries | REST/Enums/MimeType.cs:33-46 | Parser[JSon] is "application/json", Parser[Text] "text/plain", Parser[HTML] "text/html" |
| MimeTypes.Resolve | REST/Enums/MimeType.cs:81-87 | Resolve is total; it gives the mapped kind for a known extension, and Text exactly for an unknown one |
| MimeTypes.ResolveExamples | REST/Enums/MimeType.cs:54-87 | ".htm" and ".html" resolve to HTML; ".HTML", ".Json" and "" resolve to Text (ordinal comparison) |
| Routing.TrimUrl | REST/Server/EndPointsMethodGroup.cs:33 | a normalised path neither starts nor ends with ' ', '\t', '\\' or '/' |
| Routing.TrimUrlInterior | REST/Server/EndPointsMethodGroup.cs:33 | TrimUrl keeps a contiguous slice of the url untouched and only separators lie outside it |
| Routing.TrimUrlIdempotent | REST/Server/EndPointsMethodGroup.cs:33 | normalising twice equals normalising once |
| Routing.TrimUrlPadding | REST/Server/EndPointsMethodGroup.cs:33 | leading and trailing separators do not change the route |
| Routing.Lookup | REST/Server/EndPointsMethodGroup.cs:26-30 | TryGet finds a handler exactly when the normalised url is a key |
| Routing.Register | REST/Server/EndPointsMethodGroup.cs:15-23 | Add is refused (DuplicateNameException) exactly when the normalised url is already a key |
| Routing.RegisterAddsOneKey | REST/Server/EndPointsMethodGroup.cs:17-22 | a successful Add inserts exactly the key TrimUrl(url) and leaves every other entry unchanged |
| Routing.LookupAfterRegister | REST/Server/EndPointsMethodGroup.cs:15-30 | after a successful Add(u, h), TryGet(v) finds h for every v that normalises like u |
| Routing.RegisterNormalised | REST/Server/EndPointsMethodGroup.cs:17-22 | registering keeps every key of the table normalised |
| Routing.EndPointsMethodGroup.constructor | REST/Server/EndPointsMethodGroup.cs:12 | a new group has no handlers |
| Routing.EndPointsMethodGroup.Add | REST/Server/EndPointsMethodGroup.cs:15-23 | Add succeeds exactly for a new normalised url and then maps it to h; on a duplicate the existing handler stays in place |
| Routing.EndPointsMethodGroup.TryGet | REST/Server/EndPointsMethodGroup.cs:26-30 | TryGet reads the table without changing it and answers as Lookup |
| RequestParser.SplitHeader | REST/Utils/RequestParser.cs:12-15 | a line splits into an entry exactly when it contains ':' |
| RequestParser.SplitAtColon | REST/Server/RequestHandler.cs:234-237 | IndexOf(':') and the two trimmed substrings give the entry SplitHeader specifies |
| RequestParser.SplitHeaderFirstColon | REST/Utils/RequestParser.cs:12-15 | only the first ':' splits: the value keeps any further colons, and both sides are trimmed |
| RequestParser.FormattedHeaderRoundTrip | REST/Server/Response.cs:63 | a "key: value" line as Response writes it parses back to the same entry when key has no ':' and neither side has padding |
| RequestParser.TryParseHeader | REST/Utils/RequestParser.cs:10-19 | false and nothing inserted without ':'; a throw and nothing inserted for a present key; otherwise the trimmed entry is appended; with a null dictionary nothing is inserted |
| Requests.NewRequest | REST/Server/Request.cs:25-35 | the request keeps the handler's headers dictionary as given |
| Requests.BodyNormalised | REST/Server/Request.cs:30-31 | HasBody holds exactly for a non-null body; Body is "" for a null or white-space body and the argument otherwise |
| Requests.FiltersNormalised | REST/Server/Request.cs:33-34 | HasFilter holds exactly when the filter is non-null and has keys; Filters is null whenever HasFilter is false |
| Requests.GetHeader | REST/Server/Request.cs:40-41 | the stored value when the key is present, null otherwise |
| Requests.TryGetHeader | REST/Server/Request.cs:43-44 | true exactly when the key is present, with GetHeader's value |
| Requests.GetHeadersExact | REST/Server/Request.cs:46 | GetHeaders lists exactly the pairs GetHeader reports |
| Responses.Name | REST/Server/Response.cs:45 | StatusCode.ToString() is a non-empty capitalised enum name |
| Responses.CodesDistinct | REST/Server/Response.cs:45 | every modelled (int)StatusCode is a three-digit status, and distinct codes have distinct numbers |
| Responses.NamesDistinct | REST/Server/Response.cs:45 | distinct codes have distinct names |
| Responses.Description | REST/Server/Response.cs:30-37 | the description is the caller's text unless that is null or white space, then the code's name; it is never blank |
| Responses.FormattedHeader | REST/Server/Response.cs:106 | the caller's Date, Server or Connection value wins over the default |
| Responses.CustomHeadersExact | REST/Server/Response.cs:50-65 | the header loop writes exactly the entries whose key is not Date, Server, Connection, Content-Type or Content-Length |
| Responses.CustomHeadersPutReserved | REST/Server/Response.cs:52-60 | setting a reserved header does not change what the header loop writes |
| Responses.HeadPutContentType | REST/Server/Response.cs:45-65 | recording the Content-Type does not change the status line, fixed headers or custom headers |
| Responses.RenderStable | REST/Server/Response.cs:41-104 | a second ToHttpResponse in the same surroundings writes the same text and changes nothing more |
| Responses.RenderKeepsOtherHeaders | REST/Server/Response.cs:91 | serialising changes no header but Content-Type |
| Responses.CacheFreezesBody | REST/Server/Response.cs:67-71 | once bodyCache is set, changing Body or Type does not change the text written |
| Responses.RenderFirstBody | REST/Server/Response.cs:72-96 | a first serialisation of a body settles Type (JSon for an object), records Content-Type and caches "Content-Length: n\n\n" + text |
| Responses.ObjectBodyIsJson | REST/Server/Response.cs:84-92 | an object body switches Type to JSon and records "application/json; charset=" + WebName |
| Responses.JsonContentType | REST/Server/Response.cs:90 | the JSon Content-Type is "application/json; charset=" + WebName |
| Responses.PlainBodyKeepsType | REST/Server/Response.cs:75-81 | a string or value body keeps the caller's Type, whose MIME string goes into Content-Type |
| Responses.NoBodyZeroLength | REST/Server/Response.cs:97-101 | without a body or cache the text ends "Content-Length: 0" and a blank line, with no Content-Type, and nothing changes |
| Responses.CachedNeedsContentType | REST/Server/Response.cs:69 | on the cached path the indexer throws exactly when the Content-Type header is missing |
| Responses.ContentLengthReadsBack | REST/Server/Response.cs:94 | the Content-Length line (a character count) reads back through the header parser and long.TryParse as the body's length |
| Responses.Response.constructor | REST/Server/Response.cs:29-37 | the code and description are set, Type is Text, no headers, body or cache |
| Responses.Response.IsOK | REST/Server/Response.cs:26 | OK holds exactly for status 200 |
| Responses.Response.WriteHead | REST/Server/Response.cs:43-65 | the status line, Date, Server, Connection and custom header lines, as Head specifies |
| Responses.Response.ToHttpResponse | REST/Server/Response.cs:41-104 | the text returned and the new Type, headers and cache are those Render gives for the old state |
| Responses.StaticResponsesUnchanged | REST/Server/Response.cs:111-113 | serialising a shared BadRequest/NotFound/NotConnected writes status line, defaults and "Content-Length: 0" and leaves it unchanged |
| Responses.NotConnectedLooksLikeBadRequest | REST/Server/Response.cs:113 | NotConnected has its own description but the same code as BadRequest |
| RequestHandlers.ReadLine | REST/Server/RequestHandler.cs:100 | ReadLine always consumes at least one character of a non-empty rest |
| RequestHandlers.ReadLineConsumes | REST/Server/RequestHandler.cs:106 | a line holds no terminator and exactly one of "", "\n", "\r", "\r\n" is consumed after it |
| RequestHandlers.ReadBlock | REST/Server/RequestHandler.cs:118-120 | a char[n] filled with the next characters, at most n, and '\0' for the rest |
| RequestHandlers.SplitQuery | REST/Server/RequestHandler.cs:204-216 | the path is the prefix before the first '?'; filters exist exactly when the trimmed query after it is non-empty |
| RequestHandlers.ParseRootSpec | REST/Server/RequestHandler.cs:184-229 | an exception changes no field; success means a handler was found; a failed parse sets BadRequest or NotFound |
| RequestHandlers.Route | REST/Server/RequestHandler.cs:218-228 | success exactly when the path has a handler; url, filters and handler are recorded |
| RequestHandlers.ParseHeaderSpec | REST/Server/RequestHandler.cs:232-250 | only headers and response change; the response becomes the header-error 400 or stays; the only exception is a duplicate name |
| RequestHandlers.ParseHeaderAdds | REST/Server/RequestHandler.cs:234-238 | a header line is added exactly when it has ':' and a new name, and the names stay unique |
| RequestHandlers.ReadHeaders | REST/Server/RequestHandler.cs:104-111 | the header loop only extends the headers, keeps them unique, and stops at once after a kill or exception; the response changes only with a kill, and a kill it sets without an exception comes with the 400 of a line that has no ':' |
| RequestHandlers.ReadBody | REST/Server/RequestHandler.cs:114-134 | the Content-Length step changes only the request; it kills exactly when a Content-Length is present and long.TryParse rejects it, and throws exactly when the parsed length is negative or above the largest array length |
| RequestHandlers.Dispatch | REST/Server/RequestHandler.cs:137-144 | the handler step reads nothing and leaves the kill flag |
| RequestHandlers.Sized | REST/Server/RequestHandler.cs:114-129 | with the header present: kills exactly when long.TryParse fails, and throws exactly when the length is negative or above 0x7FFFFFC7 |
| RequestHandlers.Message | REST/Server/RequestHandler.cs:93-163 | every message iteration consumes at least one character |
| RequestHandlers.ConverseStep | REST/Server/RequestHandler.cs:91-164 | the loop sends the message's response and goes on unless it threw, had no response, or was killed |
| RequestHandlers.ConverseAtEnd | REST/Server/RequestHandler.cs:91 | at the end of the stream the loop sends nothing and stops |
| RequestHandlers.FirstSpace | REST/Server/RequestHandler.cs:186-187 | the method is the text before the first space |
| RequestHandlers.BadMethodRejected | REST/Server/RequestHandler.cs:186-195 | a method other than GET and POST sets BadRequest and fails with no route lookup |
| RequestHandlers.LastProtocol | REST/Server/RequestHandler.cs:197 | the last "HTTP/" of a line is the protocol marker when the version has no 'H' |
| RequestHandlers.RequestLineCuts | REST/Server/RequestHandler.cs:186-201 | on "METHOD SP target SP HTTP/v" the url is the target with its trailing space |
| RequestHandlers.RequestLineTarget | REST/Server/RequestHandler.cs:197-228 | for GET/POST the decoded target is cut at '?' and looked up in the method's table; a miss sets NotFound and fails |
| RequestHandlers.DispatchReplies | REST/Server/RequestHandler.cs:137-144 | with a handler and a request, the request carries the handler's headers (with Connection: close when killed) and the handler's outcome decides: its response, no response for null, or the HandlerFailed exception; without a request it throws |
| RequestHandlers.AfterRootReplies | REST/Server/RequestHandler.cs:103-144 | headers, body and dispatch keep the handler and kill flag; with a handler and no exception the response is the handler's, and it is missing exactly when the handler returned null |
| RequestHandlers.MessageReplies | REST/Server/RequestHandler.cs:93-163 | a message that raises nothing never has the header-error 400; without a handler it was refused with BadRequest or NotFound and kills; with one the response is the handler's, missing exactly when the handler returned null |
| RequestHandlers.MessageKill | REST/Server/RequestHandler.cs:101-128 | a message that raises nothing kills exactly when the request line is refused, a header line has no ':', or the Content-Length does not parse |
| RequestHandlers.NullResponseClosesSilently | REST/Server/RequestHandler.cs:147-163 | a handler returning null gets nothing sent for its message, and the loop ends with a kill |
| RequestHandlers.NoContentLengthNoBody | REST/Server/RequestHandler.cs:131-134 | without Content-Length the request has no body and nothing more is read |
| RequestHandlers.ContentLengthRead | REST/Server/RequestHandler.cs:114-122 | a Content-Length n no larger than 0x7FFFFFC7, as Response writes it, reads a block of n characters into a new request |
| RequestHandlers.ContentLengthTooLarge | REST/Server/RequestHandler.cs:116-118 | a Content-Length above 0x7FFFFFC7 throws before anything is read |
| RequestHandlers.BlockRequest | REST/Server/RequestHandler.cs:118-121 | a body read by ReadBlock always counts as present, stops at n or the end, and is the next n characters when they exist |
| RequestHandlers.BlockInRange | REST/Server/RequestHandler.cs:118-119 | a block that fits is exactly the next n characters |
| RequestHandlers.UnparseableContentLength | REST/Server/RequestHandler.cs:123-128 | an unparseable Content-Length kills the connection and builds no new request |
| RequestHandlers.ConversationReplies | REST/Server/RequestHandler.cs:91-164 | a connection never sends the header-error 400, sends only handler responses before its last reply and all the way when the stream ends, and, when every handler returns a response, replies before every kill |
| RequestHandlers.RequestHandler.constructor | REST/Server/RequestHandler.cs:56-61 | a new handler is free, with empty per-message state, over the server's tables |
| RequestHandlers.RequestHandler.GetLock | REST/Server/RequestHandler.cs:63-74 | true exactly when the handler was free; afterwards it is busy and nothing else changes |
| RequestHandlers.RequestHandler.ParseRoot | REST/Server/RequestHandler.cs:184-229 | the fields, result and exception are those ParseRootSpec gives |
| RequestHandlers.RequestHandler.ParseTarget | REST/Server/RequestHandler.cs:197-228 | the target step as the rest of ParseRootSpec |
| RequestHandlers.RequestHandler.RouteTo | REST/Server/RequestHandler.cs:218-228 | the lookup step as Route |
| RequestHandlers.RequestHandler.ParseHeader | REST/Server/RequestHandler.cs:232-250 | the fields, result and exception are those ParseHeaderSpec gives |
| RequestHandlers.RequestHandler.ReadHeaderLines | REST/Server/RequestHandler.cs:104-111 | the header loop as ReadHeaders |
| RequestHandlers.RequestHandler.ReadContent | REST/Server/RequestHandler.cs:114-134 | the Content-Length step as ReadBody |
| RequestHandlers.RequestHandler.ReadSized | REST/Server/RequestHandler.cs:114-129 | the Content-Length step with the header present, as Sized |
| RequestHandlers.RequestHandler.Invoke | REST/Server/RequestHandler.cs:137-144 | the handler step as Dispatch, with the handler's outcome |
| RequestHandlers.RequestHandler.ReadMessage | REST/Server/RequestHandler.cs:93-163 | one message iteration as Message |
| RequestHandlers.RequestHandler.ReadRest | REST/Server/RequestHandler.cs:103-144 | headers, body and dispatch as AfterRoot |
| RequestHandlers.RequestHandler.Serve | REST/Server/RequestHandler.cs:93-163 | one turn of the message loop sends its reply and leaves the rest of the conversation to the next turn |
| RequestHandlers.RequestHandler.HandleAsync | REST/Server/RequestHandler.cs:78-179 | the replies sent and the ending are those of Converse, and the handler is free afterwards whatever happened |
| Servers.Pick | REST/Server/Server.cs:148 | FirstOrDefault(GetLock) picks the first free handler, or the pool's size when all are busy |
| Servers.PickIsFirstFree | REST/Server/Server.cs:148 | Pick is the only index with every handler before it busy and itself free |
| Servers.Accepted | REST/Server/Server.cs:148-154 | the picked handler is claimed; when none is free one free handler is appended |
| Servers.AcceptedGrowsWhenAllBusy | REST/Server/Server.cs:149-153 | the pool grows by one exactly when all handlers are busy, and no other flag changes |
| Servers.NewHandlerReused | REST/Server/Server.cs:148-156 | as written the new handler stays free, so the next accept picks it again |
| Servers.AcceptedClaimed | REST/Server/Server.cs:148-154 | the accept with the new handler claimed |
| Servers.ClaimedNotReused | REST/Server/Server.cs:148-154 | with the new handler claimed, two accepts in a row never pick the same handler |
| Servers.BusyFlags | REST/Server/Server.cs:26 | the busy flags of the pool, in list order |
| Servers.Server.constructor | REST/Server/Server.cs:30-33 | a new server has an empty pool and empty, distinct GET and POST tables, and hands the decoder and the application handlers to every handler it creates |
| Servers.Server.Get | REST/Server/Server.cs:58-62 | registers into the GET table only, refusing a duplicate; POST is untouched |
| Servers.Server.Post | REST/Server/Server.cs:64-68 | registers into the POST table only, refusing a duplicate; GET is untouched |
| Servers.Server.Stop | REST/Server/Server.cs:115-125 | the handler pool is emptied |
| Servers.Server.Start | REST/Server/Server.cs:83-85 | Start calls Stop first, so it begins with an empty pool |
| Servers.Server.Claim | REST/Server/Server.cs:148 | the index picked is Pick of the old flags, and only that handler is claimed |
| Servers.Server.FirstFree | REST/Server/Server.cs:148 | the scan stops at the first free handler; handlers after it are not touched |
| Servers.Server.Accept | REST/Server/Server.cs:146-156 | the flags become Accepted of the old flags; the pool grows by one fresh handler exactly when all were busy; old handlers keep their state |
| Servers.Server.Grow | REST/Server/Server.cs:151-152 | a fresh, free handler is appended |
| Minifier.SkipFrom | REST/Utils/Minifier.cs:322-326 | Skip never moves back, stops at the end or at a character outside the set, and passes only characters of the set |
| Minifier.SkipWhiteSpaceFrom | REST/Utils/Minifier.cs:316-320 | SkipWhiteSpace never moves back, passes only white space, and stops at the end or at a non-white-space character |
| Minifier.WordEnd | REST/Utils/Minifier.cs:331 | the word runs to the first white space or limit character |
| Minifier.UntilEnd | REST/Utils/Minifier.cs:341 | AppendUntil stops at the first character satisfying limit, or at the end |
| Minifier.CloseFrom | REST/Utils/Minifier.cs:212 | the first "*/" at or after k, or -1 |
| Minifier.CloseFromIsIndexOf | REST/Utils/Minifier.cs:212 | the character-wise search equals IndexOf("*/", k) |
| Minifier.IndexOfClose | REST/Utils/Minifier.cs:155 | the search for "*/" the passes make |
| Minifier.Skip | REST/Utils/Minifier.cs:322-326 | the loop leaves i where SkipFrom says |
| Minifier.SkipWhiteSpace | REST/Utils/Minifier.cs:316-320 | the loop leaves i where SkipWhiteSpaceFrom says |
| Minifier.AppendNextWord | REST/Utils/Minifier.cs:328-336 | appends exactly the maximal run of non-white-space, non-limit characters after the skipped white space |
| Minifier.AppendUntil | REST/Utils/Minifier.cs:338-347 | appends exactly the characters before the first one satisfying limit |
| Minifier.TrimRows | REST/Utils/Minifier.cs:15 | each line trimmed of ' ', '\t' and '\r', in order |
| Minifier.KeepRows | REST/Utils/Minifier.cs:16 | exactly the non-empty rows includeRow accepts are kept |
| Minifier.KeepRowsAppend | REST/Utils/Minifier.cs:16 | the rows kept from a list are those kept from its front followed by those kept from its back, so order and repeats are kept |
| Minifier.KeepRowsOne | REST/Utils/Minifier.cs:16 | a single row is kept exactly when it is non-empty and accepted |
| Minifier.TrimmedHasNoBreak | REST/Utils/Minifier.cs:14-15 | trimming a line without a break gives a row without one |
| Minifier.TrimmedLines | REST/Utils/Minifier.cs:14-15 | every non-empty trimmed line is a trimmed row |
| Minifier.GetRows | REST/Utils/Minifier.cs:12-18 | the rows are exactly the non-empty trimmed lines includeRow accepts; none has padding or a line break |
| Minifier.TrimRowsAppend | REST/Utils/Minifier.cs:15 | trimming rows works row by row, in order |
| Minifier.GetRowsAppend | REST/Utils/Minifier.cs:12-18 | the rows of two texts joined by a line break are the rows of the first followed by the rows of the second |
| Minifier.GetRowsLine | REST/Utils/Minifier.cs:12-18 | a text without a line break gives its trimmed self as its only row when that is non-empty and accepted, and no row otherwise |
| Minifier.ReplaceOnlySpaces | REST/Utils/Minifier.cs:304-305 | a replacement that differs from its pattern only by spaces takes out spaces and nothing else |
| Minifier.TrimSpacesAroundUnspaced | REST/Utils/Minifier.cs:302-307 | replacing " c" and "c " by "c" only removes spaces; every other character keeps its order (which spaces go: the two rows below) |
| Minifier.ReplaceSpaceBefore | REST/Utils/Minifier.cs:304 | for c other than ' ', an occurrence of " c" becomes "c" and the text on either side is replaced on its own |
| Minifier.ReplaceSpaceAfter | REST/Utils/Minifier.cs:305 | for c other than ' ', an occurrence of "c " becomes "c" and the text on either side is replaced on its own |
| Minifier.TrimSpacesAroundAllUnspaced | REST/Utils/Minifier.cs:309-314 | the params overload only removes spaces |
| Minifier.TrimSpacesAroundEach | REST/Utils/Minifier.cs:309-314 | the foreach loop applies TrimSpacesAround for each character in turn |
| Minifier.ClearJavaScriptCodeUnspaced | REST/Utils/Minifier.cs:291-300 | ClearJavaScriptCode only removes spaces |
| MinifierCss.CssValue | REST/Utils/Minifier.cs:247-269 | the value loop stops at ';', '}' or the end and adds no more than it reads |
| MinifierCss.CssToken | REST/Utils/Minifier.cs:220-274 | the switch stays in the file and adds no more than it reads |
| MinifierCss.CssStep | REST/Utils/Minifier.cs:202-275 | a turn that goes on moves forward |
| MinifierCss.CssStepEnd | REST/Utils/Minifier.cs:204-207 | only blanks left: the loop breaks |
| MinifierCss.CssStepComment | REST/Utils/Minifier.cs:210-218 | a comment appends nothing; the turn resumes after its close or breaks without one |
| MinifierCss.CssStepToken | REST/Utils/Minifier.cs:220-274 | any other character: one token of the switch |
| MinifierCss.CssFromStep | REST/Utils/Minifier.cs:202-275 | the pass is its turns in sequence |
| MinifierCss.CssFromComment | REST/Utils/Minifier.cs:210-218 | a comment contributes nothing; an unterminated one ends the pass |
| MinifierCss.CssFromDone | REST/Utils/Minifier.cs:202 | past the end the pass has stopped |
| MinifierCss.CssFromLength | REST/Utils/Minifier.cs:199-279 | from any point the pass adds no more than is left to read |
| MinifierCss.CssNeverLonger | REST/Utils/Minifier.cs:199-279 | the minified style sheet is never longer than the original |
| MinifierCss.Value | REST/Utils/Minifier.cs:251-268 | the value loop as CssValue |
| MinifierCss.Token | REST/Utils/Minifier.cs:220-274 | the switch as CssToken |
| MinifierCss.Turn | REST/Utils/Minifier.cs:204-274 | one loop body as CssStep |
| MinifierCss.CSS | REST/Utils/Minifier.cs:199-279 | Minifier.CSS returns Css(file) |
| MinifierCss.CssFromAppends | REST/Utils/Minifier.cs:199-279 | what the pass has built is only ever extended |
| MinifierCss.CssCommentResumes | REST/Utils/Minifier.cs:210-218 | as written the pass resumes one character past "*/"; corrected right after it |
| MinifierCss.CssDropsCharAfterComment | REST/Utils/Minifier.cs:210-218 | "/**/a{}" is minified to "{}" as written |
| MinifierCss.CssCorrectedKeepsCharAfterComment | REST/Utils/Minifier.cs:210-218 | corrected, "/**/a{}" is minified to "a{}" |
| MinifierCss.CssCopies | REST/Utils/Minifier.cs:271-273 | any other character is copied and the pass goes on after it |
| MinifierCss.CssUnterminatedComment | REST/Utils/Minifier.cs:212-214 | an unterminated comment ends the pass with nothing more appended |
| MinifierCss.CssSemicolonBeforeBrace | REST/Utils/Minifier.cs:231-239 | ';' then white space then '}' is written as '}' alone |
| MinifierCss.CssSemicolonKept | REST/Utils/Minifier.cs:240-244 | ';' before anything but '}' is kept, and the pass goes on at that character |
| MinifierHtml.NextWord | REST/Utils/Minifier.cs:60 | AppendNextWord with '>' and '=' appends the word after the white space, ending at white space, a limit or the end |
| MinifierHtml.TextRun | REST/Utils/Minifier.cs:99-124 | the text loop stops at '<' or the end, moves forward on text, and only appends |
| MinifierHtml.AttrStep | REST/Utils/Minifier.cs:56-91 | an attribute turn never throws inside the tag, and corrected it never loops |
| MinifierHtml.AttrValue | REST/Utils/Minifier.cs:66-88 | the '=' branch moves forward or, as written, may start again at the '=' |
| MinifierHtml.UnquotedValue | REST/Utils/Minifier.cs:74-78 | an unquoted value is the next word; a turn ending where it began loops |
| MinifierHtml.QuotedValue | REST/Utils/Minifier.cs:79-87 | a quoted value is copied with both quotes |
| MinifierHtml.Attrs | REST/Utils/Minifier.cs:55-91 | the attribute loop stops at the closing '>' or the end; corrected it never loops |
| MinifierHtml.Element | REST/Utils/Minifier.cs:44-93 | a tag is written from '<' to '>' and the loop goes on after it |
| MinifierHtml.Closed | REST/Utils/Minifier.cs:92-93 | after the attributes '>' is appended |
| MinifierHtml.CommentCloseFrom | REST/Utils/Minifier.cs:36 | the first "-->" at or after k, or -1 |
| MinifierHtml.CommentCloseIsIndexOf | REST/Utils/Minifier.cs:36 | the character-wise search equals IndexOf("-->", k) |
| MinifierHtml.IndexOfCommentClose | REST/Utils/Minifier.cs:36 | the search for "-->" |
| MinifierHtml.AfterComment | REST/Utils/Minifier.cs:34-42 | a comment appends nothing; the loop resumes after it or breaks |
| MinifierHtml.HtmlStep | REST/Utils/Minifier.cs:27-127 | a turn that goes on moves forward and only appends; corrected it never loops |
| MinifierHtml.HtmlFromStep | REST/Utils/Minifier.cs:25-128 | the pass is its turns in sequence |
| MinifierHtml.HtmlFromDone | REST/Utils/Minifier.cs:25 | past the end the pass has stopped |
| MinifierHtml.HtmlStepEnd | REST/Utils/Minifier.cs:27-30 | only blanks left: as written file[i] is read past the end |
| MinifierHtml.HtmlStepComment | REST/Utils/Minifier.cs:34-42 | a "<!--" not followed by '[' is a comment turn |
| MinifierHtml.HtmlStepElement | REST/Utils/Minifier.cs:30-94 | any other '<' is a tag turn |
| MinifierHtml.HtmlStepText | REST/Utils/Minifier.cs:97-127 | any other character starts a text run |
| MinifierHtml.HtmlFromExtends | REST/Utils/Minifier.cs:22-132 | what the builder holds is never taken back |
| MinifierHtml.TextRunFolds | REST/Utils/Minifier.cs:99-124 | the text between tags loses every '<', tab, carriage return and line feed |
| MinifierHtml.HtmlCommentResumes | REST/Utils/Minifier.cs:34-42 | a comment is removed up to "-->"; as written one more character is skipped; without "-->" the pass ends |
| MinifierHtml.HtmlTrailingBlanks | REST/Utils/Minifier.cs:25-30 | blanks after the last element: as written the pass throws; corrected it ends |
| MinifierHtml.BareValueLoops | REST/Utils/Minifier.cs:74-78 | an unquoted value right after '=' starts the attribute turn again at the '=' |
| MinifierHtml.HtmlCorrectedEnds | REST/Utils/Minifier.cs:25-128 | the corrected pass always ends |
| MinifierHtml.HtmlDropsCharAfterComment | REST/Utils/Minifier.cs:34-42 | "<!---->ab" is minified to "b" as written |
| MinifierHtml.HtmlCorrectedKeepsCharAfterComment | REST/Utils/Minifier.cs:34-42 | corrected, "<!---->ab" is minified to "ab" |
| MinifierHtml.HtmlThrowsOnFinalNewline | REST/Utils/Minifier.cs:25-30 | "<p>\n" throws as written and gives "<p>" corrected |
| MinifierHtml.HtmlDivergesOnBareValue | REST/Utils/Minifier.cs:74-78 | "<a b=c>" loops without end as written (Diverges) |
| MinifierHtml.HtmlCorrectedKeepsBareValue | REST/Utils/Minifier.cs:74-78 | corrected, "<a b=c>" is kept as it is |
| MinifierHtml.Text | REST/Utils/Minifier.cs:99-125 | the text loop as TextRun |
| MinifierHtml.Attribute | REST/Utils/Minifier.cs:57-90 | one attribute turn as AttrStep |
| MinifierHtml.Value | REST/Utils/Minifier.cs:66-88 | the '=' branch as AttrValue |
| MinifierHtml.Unquoted | REST/Utils/Minifier.cs:74-78 | the unquoted branch as UnquotedValue |
| MinifierHtml.Quoted | REST/Utils/Minifier.cs:79-87 | the quoted branch as QuotedValue |
| MinifierHtml.Attributes | REST/Utils/Minifier.cs:55-91 | the attribute loop as Attrs |
| MinifierHtml.Name | REST/Utils/Minifier.cs:46-51 | the name is the run up to ' ', '\t', '>' or the end |
| MinifierHtml.Tag | REST/Utils/Minifier.cs:44-93 | the tag branch as Element |
| MinifierHtml.Step | REST/Utils/Minifier.cs:27-127 | one loop body as HtmlStep |
| MinifierHtml.HTML | REST/Utils/Minifier.cs:22-132 | Minifier.HTML returns Html(file), with OutOfRange and Diverges for a throw and an endless loop |
| MinifierJavaScript.RowsKept | REST/Utils/Minifier.cs:137-138 | the rows kept are exactly the non-empty trimmed lines not starting with "//" |
| MinifierJavaScript.RowsInOrder | REST/Utils/Minifier.cs:137-138 | the rows of the lines before a line break come before the rows of the lines after it |
| MinifierJavaScript.RowsTrimmed | REST/Utils/Minifier.cs:138 | each row is trimmed, has no line break and does not start with "//" |
| MinifierJavaScript.PreparedHasNoBreak | REST/Utils/Minifier.cs:140 | the rows joined with single spaces have no line break |
| MinifierJavaScript.PreparedSingleLine | REST/Utils/Minifier.cs:137-140 | a single unpadded line that is not a "//" row is walked as it is |
| MinifierJavaScript.QuoteEnd | REST/Utils/Minifier.cs:174-179 | the literal ends at the first unescaped matching quote, or at the end |
| MinifierJavaScript.JsStep | REST/Utils/Minifier.cs:143-183 | a turn that goes on moves forward; only the four-blank skip as written can get stuck |
| MinifierJavaScript.JsFromStep | REST/Utils/Minifier.cs:143-191 | the pass is its turns in sequence, flushing the cache at the end |
| MinifierJavaScript.JsStepBlank | REST/Utils/Minifier.cs:145-151 | a blank run adds one ' ' to the cache and the loop goes on after it |
| MinifierJavaScript.JsStepComment | REST/Utils/Minifier.cs:153-162 | a block comment adds nothing; an unclosed one breaks |
| MinifierJavaScript.JsStepQuote | REST/Utils/Minifier.cs:165-181 | a literal flushes the cache and is copied from quote to quote |
| MinifierJavaScript.JsStepOther | REST/Utils/Minifier.cs:183 | any other character goes to the cache |
| MinifierJavaScript.JsCopies | REST/Utils/Minifier.cs:183 | such a character is cached and the pass goes on after it |
| MinifierJavaScript.Quote | REST/Utils/Minifier.cs:172-180 | the literal loop copies from the opening quote to its closing quote |
| MinifierJavaScript.Turn | REST/Utils/Minifier.cs:145-183 | one loop body as JsStep |
| MinifierJavaScript.JavaScript | REST/Utils/Minifier.cs:135-195 | Minifier.JavaScript returns Js(file), with Diverges for an endless loop |
| MinifierJavaScript.JsCommentDropped | REST/Utils/Minifier.cs:153-162 | a comment adds nothing and the loop resumes right after "*/"; an unclosed one ends the pass |
| MinifierJavaScript.JsBlankRun | REST/Utils/Minifier.cs:145-151 | a run of blanks becomes one ' ' |
| MinifierJavaScript.JsFromExtends | REST/Utils/Minifier.cs:141-194 | what the builder holds is the start of the text returned |
| MinifierJavaScript.JsQuoteKept | REST/Utils/Minifier.cs:165-181 | a quoted literal is copied unchanged into the output after the flushed cache |
| MinifierJavaScript.FinishLength | REST/Utils/Minifier.cs:186-191 | flushing the cache adds no more than it holds |
| MinifierJavaScript.JsNeverLonger | REST/Utils/Minifier.cs:135-195 | the minified script is never longer than the joined rows |
| MinifierJavaScript.JsStuckOnOtherWhiteSpace | REST/Utils/Minifier.cs:145-150 | white space other than the four blanks makes the loop start again at the same place for ever |
| MinifierJavaScript.JsDivergesOnNoBreakSpace | REST/Utils/Minifier.cs:145-150 | "a", U+00A0, "b" loops without end as written (Diverges); the corrected pass ends |
| MinifierJavaScript.JsCorrectedNeverDiverges | REST/Utils/Minifier.cs:143-184 | with the white-space case skipping all white space, the pass always ends |

## Findings

| source | as written | input that shows it | evidently intended | confidence | as-written member | corrected member |
|---|---|---|---|---|---|---|
| REST/Server/Server.cs:148-156 | a handler created because all are busy is handed the connection without GetLock, so it stays free | a pool whose handlers are all busy, accepted twice | the new handler is claimed, so the next accept does not pick it while it serves | not executed | Servers.NewHandlerReused | Servers.ClaimedNotReused |
| REST/Utils/Minifier.cs:210-218 | `i = end + 2; continue;` and the loop's `i++` skip the character after "*/" | "/**/a{}" gives "{}" | resume right after "*/", giving "a{}" | not executed | MinifierCss.CssDropsCharAfterComment | MinifierCss.CssCorrectedKeepsCharAfterComment |
| REST/Utils/Minifier.cs:34-42 | `i += 3; continue;` and the loop's `i++` skip the character after "-->" | "<!---->ab" gives "b" | resume right after "-->", giving "ab" | not executed | MinifierHtml.HtmlDropsCharAfterComment | MinifierHtml.HtmlCorrectedKeepsCharAfterComment |
| REST/Utils/Minifier.cs:25-30 | after Skip reaches the end, `file[i]` is read out of range | "<p>\n" throws IndexOutOfRangeException | stop when only blanks are left, giving "<p>" | not executed | MinifierHtml.HtmlThrowsOnFinalNewline | MinifierHtml.HtmlTrailingBlanks |
| REST/Utils/Minifier.cs:74-78 | `i--` moves back onto '=', the next word read there is empty, and the attribute loop restarts at '=' | "<a b=c>" loops without end; each turn appends " =" to the builder, so it ends only when memory runs out (the model's Diverges) | read the word from the value's first character, giving "<a b=c>" | not executed | MinifierHtml.HtmlDivergesOnBareValue | MinifierHtml.HtmlCorrectedKeepsBareValue |
| REST/Utils/Minifier.cs:145-150 | char.IsWhiteSpace enters the branch but Skip passes only ' ', '\t', '\r', '\n', and `i--` returns to the same character | "a", a no-break space (U+00A0), "b" loops without end; each turn appends ' ' to the cache, so it ends only when memory runs out (the model's Diverges) | skip all white space, so the pass ends | not executed | MinifierJavaScript.JsDivergesOnNoBreakSpace | MinifierJavaScript.JsCorrectedNeverDiverges |

## Left out

- Sockets, streams and threads: `AcceptAsync`, `Task.Run`, `SendAsync`, the listener thread of `Start` and `Task.WhenAll` in `Stop`, cancellation tokens, `AutoResetEvent`, and the lock around `isBusy`. The model is sequential; the text a client sends is a parameter of `HandleAsync`.
- Logging (`Logger`) and `Console` output: no effect on behaviour.
- `HttpUtility.UrlDecode` and `HttpUtility.ParseQueryString`: foreign code. The decoder is a parameter. A parsed query is its text, and `HasKeys()` is "contains `'='`".
- `ToJson` (TinyJson): foreign code. An object body carries the text it would produce.
- `DateTime.Now`, `Environment.NewLine` and `Encoding.WebName`: environment values. They are fields of `Env`.
- UTF-8 encoding of the response bytes (`Encoding.UTF8.GetBytes`): lengths are counted in characters, as the source counts them.
- `Response.Send`: writer I/O.
- `Response.Body` of an enum type: the `IsValueType` test comes first, so an enum renders as its `ToString()` text. That text is carried like any other value body.
- The status codes: `StatusCode` models fifteen common members of `HttpStatusCode`, not all of them.
- Surrogate pairs: every UTF-16 code unit is one character.
- `MapDirectory` and `MapEmbeddedDirectory`: they only throw `NotImplementedException`.
- The client (`REST/Client/Client.cs`) and the test programs are not part of this model.
- IndexOfFrom: an ordinal search. The source's `IndexOf(string, int)` (Minifier.cs:36, 155, 212) compares with the current culture, which skips ignorable characters such as the soft hyphen U+00AD, so "*\u00AD/" would close a comment there. `CloseFrom` and `CommentCloseFrom` inherit this.
- LastIndexOf: an ordinal search. The source's `LastIndexOf(string)` (RequestHandler.cs:197) is culture-sensitive in the same way.
- NotLineComment: an ordinal prefix test. The source's `StartsWith(string)` (Minifier.cs:138) is culture-sensitive, so a row starting with an ignorable character and then "//" would also be dropped there.
- ReadSized: `new char[n]` may also fail for lengths up to 0x7FFFFFC7 when the process lacks the memory. That depends on the machine. The model reads the block for every length in that range.
- ReadBody: same gap as ReadSized, for lengths that fit an array but not the memory.
- Other exceptions of the stream and socket (a dropped connection, an I/O error): I/O is outside the model.
- KeepRows: its own contract states which rows are kept, not their order. `KeepRowsAppend` and `KeepRowsOne` state the order and repeats.
- GetRows: its own contract states which rows are kept, not their order. `GetRowsAppend` and `GetRowsLine` state it.
- RowsKept: states membership. `RowsInOrder` states the order.
- TrimSpacesAroundUnspaced: states only that spaces are taken out. Which spaces go is stated for each of the two replacements by `ReplaceSpaceBefore` and `ReplaceSpaceAfter`, not for their composition.
- TrimSpacesAroundAllUnspaced: the same gap for the params overload; it is proved only to take out spaces.
- ClearJavaScriptCodeUnspaced: the same gap over the operator list; it is proved only to take out spaces.
- Dictionaries.Put: its own contract does not state the key set. That is stated by `Dictionaries.PutUnique` for dictionaries with unique keys, the only ones the model builds.
