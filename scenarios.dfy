/**
  Client-side sequences of events against the HTTP binding: what a caller can conclude
  from the handlers' contracts alone about opens, posts and closes in a fixed order.
 */
module Scenarios {
  import opened Wrappers
  import opened SessionIds
  import opened Registry
  import opened Connections
  import opened Http

  /**
    Two sessions open under supplied ids: a message naming either reaches that one's
    stream, a message naming neither reaches the earlier one.
   */
  method RoutingBetweenTwoSessions(a: string, b: string)
    returns (toA: Option<Transport>, toB: Option<Transport>, unnamed: Option<Transport>)
    requires a != [] && b != [] && a != b
    ensures toA == Some(Transport(EndpointFor(a), 1))
    ensures toB == Some(Transport(EndpointFor(b), 2))
    ensures unnamed == toA
  {
    var registry := new SessionRegistry<Transport>();
    var idA, openA := HandleSse(registry, Some(a), "", 0, 1, true, Returned);
    var idB, openB := HandleSse(registry, Some(b), "", 0, 2, true, Returned);
    assert registry.entries == [(a, Transport(EndpointFor(a), 1)), (b, Transport(EndpointFor(b), 2))];
    var ackA, ackB, ackUnnamed;
    toA, ackA := HandlePost(registry, Some(a), true, Returned);
    toB, ackB := HandlePost(registry, Some(b), true, Returned);
    unnamed, ackUnnamed := HandlePost(registry, None, true, Returned);
  }

  /**
    One generated session, closed twice (a duplicate close event), then a message that
    names it: the second close removes nothing and the message is refused with 400.
   */
  method CloseThenPost(randomText: string, now: nat)
    returns (firstClose: bool, secondClose: bool, target: Option<Transport>, res: Response)
    ensures firstClose && !secondClose
    ensures target == None
    ensures res == Response(true, Some(400), Some(JsonError(NoActiveConnections)))
  {
    var registry := new SessionRegistry<Transport>();
    var id, openRes := HandleSse(registry, None, randomText, now, 1, true, Returned);
    assert HasKey(registry.entries, id);
    firstClose := OnClose(registry, id);
    assert registry.entries == [];
    secondClose := OnClose(registry, id);
    target, res := HandlePost(registry, Some(id), true, Returned);
  }

  /**
    A connect that throws before writing headers gets a 500 with the fallback message,
    yet its id stays registered and receives messages until its close event.
   */
  method ConnectFailureStaysRegistered(id: string, stream: StreamId)
    returns (openRes: Response, target: Option<Transport>)
    requires id != []
    ensures openRes.status == Some(500)
    ensures openRes.body == Some(Text("Server error: Unknown error"))
    ensures target == Some(Transport(EndpointFor(id), stream))
  {
    assert "Server error: " + ErrorText("") == "Server error: Unknown error";
    var registry := new SessionRegistry<Transport>();
    var openedId;
    openedId, openRes := HandleSse(registry, Some(id), "", 0, stream, false, Threw(""));
    assert HasKey(registry.entries, id) by {
      assert registry.entries == [(id, Transport(EndpointFor(id), stream))];
    }
    var ack;
    target, ack := HandlePost(registry, Some(id), true, Returned);
  }

  /**
    Two connections with the same supplied id: the second replaces the first's entry,
    and the first's close then removes the second's, so the table ends empty.
   */
  method StaleCloseEvictsNewer(id: string)
    returns (beforeClose: Option<Transport>, afterClose: Option<Transport>)
    requires id != []
    ensures beforeClose == Some(Transport(EndpointFor(id), 2))
    ensures afterClose == None
  {
    var registry := new SessionRegistry<Transport>();
    var first, firstRes := HandleSse(registry, Some(id), "", 0, 1, true, Returned);
    var second, secondRes := HandleSse(registry, Some(id), "", 0, 2, true, Returned);
    var ackBefore, ackAfter;
    beforeClose, ackBefore := HandlePost(registry, Some(id), true, Returned);
    var removed := OnClose(registry, first);
    afterClose, ackAfter := HandlePost(registry, Some(id), true, Returned);
  }

  /**
    Sessions a, then b; a closes and opens again. A message naming neither now reaches
    b, whose current run began earliest, and a's reopened entry sits behind it.
   */
  method FallbackAfterReopen(a: string, b: string)
    returns (unnamed: Option<Transport>)
    requires a != [] && b != [] && a != b
    ensures unnamed == Some(Transport(EndpointFor(b), 2))
  {
    var registry := new SessionRegistry<Transport>();
    var idA, openA := HandleSse(registry, Some(a), "", 0, 1, true, Returned);
    var idB, openB := HandleSse(registry, Some(b), "", 0, 2, true, Returned);
    var removed := OnClose(registry, a);
    assert registry.entries == [(b, Transport(EndpointFor(b), 2))];
    var idA2, openA2 := HandleSse(registry, Some(a), "", 0, 3, true, Returned);
    assert registry.entries == [(b, Transport(EndpointFor(b), 2)), (a, Transport(EndpointFor(a), 3))];
    var ack;
    unnamed, ack := HandlePost(registry, None, true, Returned);
  }
}
