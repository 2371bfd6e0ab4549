/**
 * Server: the endpoint registration of its EndPointsManager (one routing
 * table per method) and the pool of RequestHandlers the accept loop hands
 * connections to. Sockets, threads and the cancellation token are not part of
 * this model: Accept is one turn of the accept loop after a client connected.
 */
module Servers {
  import opened Strings
  import opened Routing
  import opened Requests
  import opened RequestHandlers

  // ---------------------------------------------------------------- the pool, as busy flags

  /**
   * FirstOrDefault(x => x.GetLock()) over the busy flags: the index of the
   * first free handler, or the length of the pool when every handler is busy.
   */
  function Pick(busy: seq<bool>): (r: nat)
    ensures r <= |busy|
    ensures forall j :: 0 <= j < r ==> busy[j]
    ensures r < |busy| ==> !busy[r]
  {
    if busy == [] then 0
    else if !busy[0] then 0
    else 1 + Pick(busy[1..])
  }

  /** Pick is the only index with every handler before it busy and itself free (or past the end). */
  lemma PickIsFirstFree(busy: seq<bool>, k: nat)
    requires k <= |busy| && forall j :: 0 <= j < k ==> busy[j]
    requires k < |busy| ==> !busy[k]
    ensures Pick(busy) == k
  {
  }

  /**
   * The busy flags after one accept as the loop is written: the free handler
   * found is claimed, and when there is none a new handler is appended and
   * handed the connection without being claimed.
   */
  function Accepted(busy: seq<bool>): (r: seq<bool>)
    ensures Pick(busy) < |busy| ==> r == busy[Pick(busy) := true]
    ensures Pick(busy) == |busy| ==> r == busy + [false]
  {
    var k := Pick(busy);
    if k < |busy| then busy[k := true] else busy + [false]
  }

  /** The pool grows by one exactly when every handler is busy, and no flag but the chosen one changes. */
  lemma AcceptedGrowsWhenAllBusy(busy: seq<bool>)
    ensures |Accepted(busy)| == |busy| + 1 <==> forall j :: 0 <= j < |busy| ==> busy[j]
    ensures |Accepted(busy)| == |busy| || |Accepted(busy)| == |busy| + 1
    ensures forall j :: 0 <= j < |busy| && j != Pick(busy) ==> Accepted(busy)[j] == busy[j]
  {
    if Pick(busy) < |busy| {
      assert !busy[Pick(busy)];
    }
  }

  /**
   * As written, a handler created for a connection stays free, so the very
   * next accept hands it a second connection while it is still serving the
   * first.
   */
  lemma NewHandlerReused(busy: seq<bool>)
    requires forall j :: 0 <= j < |busy| ==> busy[j]
    ensures Pick(busy) == |busy|
    ensures !Accepted(busy)[Pick(busy)]
    ensures Pick(Accepted(busy)) == Pick(busy)
  {
    var r := Accepted(busy);
    assert forall j :: 0 <= j < |busy| ==> r[j];
  }

  /** The accept with the new handler claimed, as GetLock would have done. */
  function AcceptedClaimed(busy: seq<bool>): (r: seq<bool>)
    ensures Pick(busy) < |busy| ==> r == busy[Pick(busy) := true]
    ensures Pick(busy) == |busy| ==> r == busy + [true]
  {
    var k := Pick(busy);
    if k < |busy| then busy[k := true] else busy + [true]
  }

  /**
   * With the new handler claimed, the handler given a connection is busy
   * afterwards, so two accepts in a row never pick the same handler.
   */
  lemma ClaimedNotReused(busy: seq<bool>)
    ensures Pick(busy) < |AcceptedClaimed(busy)| && AcceptedClaimed(busy)[Pick(busy)]
    ensures Pick(AcceptedClaimed(busy)) != Pick(busy)
  {
    var r := AcceptedClaimed(busy);
    assert r[Pick(busy)];
  }

  /** The busy flags of a list of handlers, in list order. */
  function BusyFlags(hs: seq<RequestHandler>): (r: seq<bool>)
    reads hs
    ensures |r| == |hs| && forall i :: 0 <= i < |hs| ==> r[i] == hs[i].isBusy
  {
    if hs == [] then [] else [hs[0].isBusy] + BusyFlags(hs[1..])
  }

  // ---------------------------------------------------------------- the server object

  class Server {
    /** EndPointsManager.GET and EndPointsManager.POST. */
    const get: EndPointsMethodGroup
    const post: EndPointsMethodGroup
    /** HttpUtility.UrlDecode, handed to every handler. */
    const decode: string -> string
    /** What the application handlers registered with Get and Post do with a request. */
    const invoke: (HandlerId, Request) -> Invoked
    /** RequestHandlers. */
    var handlers: seq<RequestHandler>

    ghost predicate Valid()
      reads this, get, post
    {
      Routes() && Pool()
    }

    /** Two distinct routing tables, each keyed by normalised paths. */
    ghost predicate Routes()
      reads this, get, post
    {
      get.Valid() && post.Valid() && get != post
    }

    /** Every handler is in the pool once and routes through the server's tables. */
    ghost predicate Pool()
      reads this
    {
      && (forall i, j :: 0 <= i < j < |handlers| ==> handlers[i] != handlers[j])
      && (forall i :: 0 <= i < |handlers| ==> handlers[i].get == get && handlers[i].post == post && handlers[i].invoke == invoke)
    }

    function Flags(): seq<bool>
      reads this, handlers
    {
      BusyFlags(handlers)
    }

    constructor (decode: string -> string, invoke: (HandlerId, Request) -> Invoked)
      ensures Valid() && handlers == [] && this.decode == decode && this.invoke == invoke
      ensures get.handlers == map[] && post.handlers == map[]
    {
      get := new EndPointsMethodGroup();
      post := new EndPointsMethodGroup();
      this.decode := decode;
      this.invoke := invoke;
      handlers := [];
    }

    /** Get: register a GET handler; false where EndPointsMethodGroup.Add throws. POST is untouched. */
    method Get(url: string, h: HandlerId) returns (ok: bool)
      requires Routes()
      modifies get
      ensures Routes()
      ensures ok <==> TrimUrl(url) !in old(get.handlers)
      ensures ok ==> get.handlers == old(get.handlers)[TrimUrl(url) := h]
      ensures !ok ==> get.handlers == old(get.handlers)
      ensures post.handlers == old(post.handlers)
    {
      ok := get.Add(url, h);
    }

    /** POST: register a POST handler; false where EndPointsMethodGroup.Add throws. GET is untouched. */
    method Post(url: string, h: HandlerId) returns (ok: bool)
      requires Routes()
      modifies post
      ensures Routes()
      ensures ok <==> TrimUrl(url) !in old(post.handlers)
      ensures ok ==> post.handlers == old(post.handlers)[TrimUrl(url) := h]
      ensures !ok ==> post.handlers == old(post.handlers)
      ensures get.handlers == old(get.handlers)
    {
      ok := post.Add(url, h);
    }

    /** Stop: the handler pool is cleared; the routing tables stay. */
    method Stop()
      requires Valid()
      modifies this
      ensures Valid() && handlers == []
    {
      handlers := [];
    }

    /** Start: always stops first, so it begins with an empty pool. */
    method Start()
      requires Valid()
      modifies this
      ensures Valid() && handlers == []
    {
      Stop();
    }

    /**
     * RequestHandlers.FirstOrDefault(x => x.GetLock()): try the handlers in
     * order and stop at the first that can be claimed; the result is its
     * index, or the size of the pool when none could.
     */
    method Claim() returns (index: nat)
      requires Pool()
      modifies handlers`isBusy
      ensures index == Pick(old(Flags()))
      ensures index < |handlers| ==> Flags() == old(Flags())[index := true]
      ensures index == |handlers| ==> Flags() == old(Flags())
    {
      ghost var busy := Flags();
      var found;
      index, found := FirstFree();
      ghost var after := if found then busy[index := true] else busy;
      assert |Flags()| == |after| && forall j :: 0 <= j < |after| ==> Flags()[j] == after[j];
      PickIsFirstFree(busy, index);
    }

    /** The loop of Claim, stated handler by handler. */
    method FirstFree() returns (index: nat, found: bool)
      requires Pool()
      modifies handlers`isBusy
      ensures index <= |handlers| && (found <==> index < |handlers|)
      ensures forall j :: 0 <= j < index ==> old(handlers[j].isBusy)
      ensures found ==> !old(handlers[index].isBusy)
      ensures forall j :: 0 <= j < |handlers| ==> handlers[j].isBusy == (old(handlers[j].isBusy) || (found && j == index))
    {
      index := 0;
      found := false;
      while index < |handlers| && !found
        invariant index <= |handlers|
        invariant forall j :: 0 <= j < index ==> old(handlers[j].isBusy)
        invariant found ==> index < |handlers| && !old(handlers[index].isBusy)
        invariant forall j :: 0 <= j < |handlers| ==> handlers[j].isBusy == (old(handlers[j].isBusy) || (found && j == index))
        decreases |handlers| - index, if found then 0 else 1
      {
        var ok := handlers[index].GetLock();
        if ok {
          found := true;
        } else {
          index := index + 1;
        }
      }
    }

    /**
     * One turn of the accept loop: the first handler that can be claimed, or
     * else a new handler appended to the pool (and, as written, not claimed),
     * is handed the connection; the result is its index.
     */
    method Accept() returns (index: nat)
      requires Valid()
      modifies this, handlers`isBusy
      ensures Valid()
      ensures index == Pick(old(Flags())) && index < |handlers|
      ensures Flags() == Accepted(old(Flags()))
      ensures |handlers| == |old(handlers)| + (if index == |old(handlers)| then 1 else 0)
      ensures handlers[..|old(handlers)|] == old(handlers)
      ensures index == |old(handlers)| ==> fresh(handlers[index]) && handlers[index].State() == Fields(None, None, "", None, None, [])
      ensures forall i :: 0 <= i < |old(handlers)| ==> handlers[i].State() == old(handlers[i].State())
    {
      index := Claim();
      if index == |handlers| {
        Grow();
      }
    }

    /** RequestHandlers.Add(new RequestHandler(...)): a fresh, free handler at the end of the pool. */
    method Grow()
      requires Pool()
      modifies this
      ensures Pool() && |handlers| == |old(handlers)| + 1 && handlers[..|old(handlers)|] == old(handlers)
      ensures fresh(handlers[|old(handlers)|]) && handlers[|old(handlers)|].State() == Fields(None, None, "", None, None, [])
      ensures Flags() == old(Flags()) + [false]
    {
      var h := new RequestHandler(get, post, decode, invoke);
      handlers := handlers + [h];
      assert handlers[..|old(handlers)|] == old(handlers);
    }
  }
}
