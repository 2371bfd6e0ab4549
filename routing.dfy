/**
 * EndPointsMethodGroup: the routing table of one HTTP method. Paths are
 * normalised by trimming ' ', '\t', '\\' and '/' from both ends; lookup is an
 * exact match on the normalised path. Application handlers are opaque ids.
 */
module Routing {
  import opened Strings

  /** An application handler (Func<Request, Task<Response>>), kept opaque. */
  type HandlerId = nat

  const UrlTrimChars: set<char> := {' ', '\t', '\\', '/'}

  /** TrimUrl: url.Trim(' ', '\t', '\\', '/'). */
  function TrimUrl(url: string): (r: string)
    ensures r == [] || (r[0] !in UrlTrimChars && r[|r| - 1] !in UrlTrimChars)
  {
    Trim(url, UrlTrimChars)
  }

  /**
   * TrimUrl strips every leading and trailing separator and keeps the interior:
   * the result is a slice of url and only separators lie outside it.
   */
  lemma TrimUrlInterior(url: string)
    ensures var a := |url| - |TrimStart(url, UrlTrimChars)|;
      var r := TrimUrl(url);
      a + |r| <= |url| && r == url[a..a + |r|]
      && (forall k :: 0 <= k < a ==> url[k] in UrlTrimChars)
      && (forall k :: a + |r| <= k < |url| ==> url[k] in UrlTrimChars)
  {
    TrimBounds(url, UrlTrimChars);
  }

  lemma TrimUrlIdempotent(url: string)
    ensures TrimUrl(TrimUrl(url)) == TrimUrl(url)
  {
    TrimIdempotent(url, UrlTrimChars);
  }

  predicate AllUrlTrimChars(s: string) {
    forall k :: 0 <= k < |s| ==> s[k] in UrlTrimChars
  }

  /** Leading and trailing slashes, backslashes, spaces and tabs do not change the route. */
  lemma TrimUrlPadding(p: string, url: string, q: string)
    requires AllUrlTrimChars(p) && AllUrlTrimChars(q)
    ensures TrimUrl(p + url + q) == TrimUrl(url)
  {
    TrimPadding(p, url, q, UrlTrimChars);
  }

  /** Every key of a routing table is already normalised. */
  ghost predicate Normalised(handlers: map<string, HandlerId>) {
    forall k :: k in handlers ==> TrimUrl(k) == k
  }

  /** TryGet on a table: the handler registered under the normalised url. */
  function Lookup(handlers: map<string, HandlerId>, url: string): (r: Option<HandlerId>)
    ensures r.Some? <==> TrimUrl(url) in handlers
  {
    var key := TrimUrl(url);
    if key in handlers then Some(handlers[key]) else None
  }

  /** Add on a table: None where the source throws DuplicateNameException. */
  function Register(handlers: map<string, HandlerId>, url: string, h: HandlerId): (r: Option<map<string, HandlerId>>)
    ensures r.None? <==> TrimUrl(url) in handlers
  {
    var key := TrimUrl(url);
    if key in handlers then None else Some(handlers[key := h])
  }

  /** A successful Add adds exactly the key TrimUrl(url); no other entry changes. */
  lemma RegisterAddsOneKey(handlers: map<string, HandlerId>, url: string, h: HandlerId)
    requires Register(handlers, url, h).Some?
    ensures var m := Register(handlers, url, h).value;
      m.Keys == handlers.Keys + {TrimUrl(url)} && TrimUrl(url) !in handlers
      && forall k :: k in handlers ==> m[k] == handlers[k]
  {
    var key := TrimUrl(url);
    var m := handlers[key := h];
    assert Register(handlers, url, h).value == m;
    assert m.Keys == handlers.Keys + {key};
  }

  /** After a successful Add(u, h), TryGet(v) finds h for every v that normalises like u. */
  lemma LookupAfterRegister(handlers: map<string, HandlerId>, u: string, h: HandlerId, v: string)
    requires Register(handlers, u, h).Some?
    requires TrimUrl(v) == TrimUrl(u)
    ensures Lookup(Register(handlers, u, h).value, v) == Some(h)
  {
  }

  /** Registering keeps the table normalised. */
  lemma RegisterNormalised(handlers: map<string, HandlerId>, url: string, h: HandlerId)
    requires Normalised(handlers) && Register(handlers, url, h).Some?
    ensures Normalised(Register(handlers, url, h).value)
  {
    TrimUrlIdempotent(url);
  }

  class EndPointsMethodGroup {
    var handlers: map<string, HandlerId>

    ghost predicate Valid()
      reads this
    {
      Normalised(handlers)
    }

    constructor ()
      ensures Valid() && handlers == map[]
    {
      handlers := map[];
    }

    /**
     * Add: ok is false where the source throws DuplicateNameException; the
     * handler already registered then stays in place.
     */
    method Add(url: string, h: HandlerId) returns (ok: bool)
      requires Valid()
      modifies this
      ensures Valid()
      ensures ok <==> TrimUrl(url) !in old(handlers)
      ensures ok ==> handlers == old(handlers)[TrimUrl(url) := h]
      ensures !ok ==> handlers == old(handlers)
    {
      var key := TrimUrl(url);
      if key in handlers {
        return false;
      }
      TrimUrlIdempotent(url);
      handlers := handlers[key := h];
      ok := true;
    }

    /** TryGet: reads the table and never changes it. */
    function TryGet(url: string): (r: Option<HandlerId>)
      reads this
      ensures r == Lookup(handlers, url)
    {
      var key := TrimUrl(url);
      if key in handlers then Some(handlers[key]) else None
    }
  }
}
