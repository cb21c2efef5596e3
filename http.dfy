/**
  The HTTP/SSE binding: the `GET /sse` handler that opens a session, the close listener
  that ends it, and the `POST /messages` handler that routes an inbound message.

  The SDK calls are not modelled; each becomes parameters saying what it did: whether it
  committed the response headers, and whether it returned or threw (with its message).
  A transport is the endpoint text it was built with plus the identity of the GET
  response stream it writes to.
 */
module Http {
  import opened Wrappers
  import opened SessionIds
  import opened Registry
  import opened Ordering
  import opened Connections

  /** Identity of the GET response a transport streams events onto. */
  type StreamId = nat

  datatype Transport = Transport(endpoint: string, stream: StreamId)

  const MessagesPath: string := "/messages?sessionId="

  /** The message-submission endpoint text the transport is built with. */
  function EndpointFor(id: string): (r: string)
    ensures |r| == |MessagesPath| + |id|
    ensures r[..|MessagesPath|] == MessagesPath && r[|MessagesPath|..] == id
  {
    MessagesPath + id
  }

  lemma EndpointNamesSession(a: string, b: string)
    ensures EndpointFor(a) == EndpointFor(b) <==> a == b
  {
    if EndpointFor(a) == EndpointFor(b) {
      assert a == EndpointFor(a)[|MessagesPath|..];
    }
  }

  // ---------------------------------------------------------------------------
  // Responses and the headers-sent guard

  datatype Body = Text(text: string) | JsonError(error: string)

  /** The parts of an Express response the handlers touch. */
  datatype Response = Response(headersSent: bool, status: Option<int>, body: Option<Body>)

  const Fresh: Response := Response(false, None, None)

  const NoActiveConnections: string := "No active connections"

  /** What a foreign call did: it returned, or it threw an error with this message. */
  datatype CallOutcome = Returned | Threw(message: string)

  /** `error.message || 'Unknown error'`: an empty message is replaced. */
  function ErrorText(message: string): (t: string)
    ensures t != []
    ensures message != [] ==> t == message
  {
    if message == [] then "Unknown error" else message
  }

  /** A foreign call that wrote to the response has committed its headers. */
  function AfterForeignCall(res: Response, wroteHeaders: bool): (r: Response)
    ensures r.headersSent <==> res.headersSent || wroteHeaders
    ensures r.status == res.status && r.body == res.body
  {
    if wroteHeaders then res.(headersSent := true) else res
  }

  /**
    The catch blocks' guard: set the error status and body only while the headers are
    not yet sent. Once they are, the response is left exactly as it was.
   */
  function FailUnlessCommitted(res: Response, code: int, body: Body): (r: Response)
    ensures r.headersSent
    ensures res.headersSent ==> r == res
    ensures !res.headersSent ==> r.status == Some(code) && r.body == Some(body)
  {
    if res.headersSent then res else Response(true, Some(code), Some(body))
  }

  // ---------------------------------------------------------------------------
  // The registry invariant the handlers keep

  /** An entry is well bound when its id is non-empty and its transport was built with that id's endpoint. */
  predicate WellBound(p: (string, Transport)) {
    p.0 != [] && p.1.endpoint == EndpointFor(p.0)
  }

  ghost predicate Routable(e: Entries<Transport>) {
    forall p :: p in e ==> WellBound(p)
  }

  // ---------------------------------------------------------------------------
  // Handlers

  /**
    GET /sse: resolve the id, build the transport, insert it, then connect. The entry is
    inserted before `connect` runs, so it stays registered whether connect returns or
    throws; a throw sets status 500 only if connect had not yet committed the headers.
    The close listener attached afterwards is OnClose with the returned id.
   */
  method HandleSse(registry: SessionRegistry<Transport>, query: Option<string>,
                   randomText: string, now: nat, stream: StreamId,
                   connectWroteHeaders: bool, connect: CallOutcome)
    returns (id: string, res: Response)
    requires registry.Valid() && Routable(registry.entries)
    modifies registry
    ensures registry.Valid() && Routable(registry.entries)
    ensures id == ResolveSessionId(query, randomText, now)
    ensures registry.history == old(registry.history) + [Opened(id, Transport(EndpointFor(id), stream))]
    ensures registry.entries == Put(old(registry.entries), id, Transport(EndpointFor(id), stream))
    ensures Lookup(registry.entries, id) == Some(Transport(EndpointFor(id), stream))
    ensures forall k :: k != id ==> Lookup(registry.entries, k) == Lookup(old(registry.entries), k)
    ensures res.headersSent <==> connectWroteHeaders || connect.Threw?
    ensures res.status == if connect.Threw? && !connectWroteHeaders then Some(500) else None
    ensures connect.Threw? && !connectWroteHeaders ==>
              res.body == Some(Text("Server error: " + ErrorText(connect.message)))
  {
    id := ResolveSessionId(query, randomText, now);
    res := Fresh;
    var transport := Transport(EndpointFor(id), stream);
    registry.Open(id, transport);
    res := AfterForeignCall(res, connectWroteHeaders);
    if connect.Threw? {
      res := FailUnlessCommitted(res, 500, Text("Server error: " + ErrorText(connect.message)));
    }
  }

  /** The close listener: removes whatever entry is registered under the id, if any. */
  method OnClose(registry: SessionRegistry<Transport>, id: string) returns (removed: bool)
    requires registry.Valid() && Routable(registry.entries)
    modifies registry
    ensures registry.Valid() && Routable(registry.entries)
    ensures registry.history == old(registry.history) + [Closed(id)]
    ensures removed <==> HasKey(old(registry.entries), id)
    ensures registry.entries == Remove(old(registry.entries), id)
    ensures Lookup(registry.entries, id) == None
    ensures forall k :: k != id ==> Lookup(registry.entries, k) == Lookup(old(registry.entries), k)
  {
    removed := registry.Close(id);
  }

  /**
    POST /messages: pick the transport and hand it the message. The registry is only
    read. An empty table is answered 400 "No active connections"; a throw from the
    delivery sets status 500 only if the headers were not yet sent.
   */
  method HandlePost(registry: SessionRegistry<Transport>, query: Option<string>,
                    deliverWroteHeaders: bool, deliver: CallOutcome)
    returns (target: Option<Transport>, res: Response)
    requires registry.Valid() && Routable(registry.entries)
    ensures target.None? <==> registry.entries == []
    ensures target.None? ==> res == Response(true, Some(400), Some(JsonError(NoActiveConnections)))
    ensures target.Some? ==> Delivered(target.value) == SelectRoute(registry.entries, query)
    ensures query.Some? && HasKey(registry.entries, query.value) ==>
              target.Some? && Lookup(registry.entries, query.value) == target &&
              target.value.endpoint == EndpointFor(query.value)
    ensures target.Some? && (query.None? || !HasKey(registry.entries, query.value)) ==>
              target.value == registry.entries[0].1 &&
              target.value.endpoint == EndpointFor(registry.entries[0].0) &&
              EarliestLive(registry.history, registry.entries[0].0)
    ensures target.Some? ==>
              res.status == (if deliver.Threw? && !deliverWroteHeaders then Some(500) else None)
    ensures target.Some? && deliver.Threw? && !deliverWroteHeaders ==>
              res.body == Some(JsonError("Internal server error: " + ErrorText(deliver.message)))
  {
    var route := registry.Route(query);
    match route
    case NoActive =>
      target := None;
      res := Response(true, Some(400), Some(JsonError(NoActiveConnections)));
    case Delivered(t) =>
      target := Some(t);
      if query.Some? && HasKey(registry.entries, query.value) {
        var i :| 0 <= i < |registry.entries| && registry.entries[i].0 == query.value;
        assert WellBound(registry.entries[i]);
        assert (query.value, t) in registry.entries;
      } else {
        assert registry.entries[0] in registry.entries;
      }
      res := AfterForeignCall(Fresh, deliverWroteHeaders);
      if deliver.Threw? {
        res := FailUnlessCommitted(res, 500,
                 JsonError("Internal server error: " + ErrorText(deliver.message)));
      }
  }
}
