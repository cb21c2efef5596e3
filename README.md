# Session registry and message routing of the HTTP/SSE binding

A Dafny model of the session-routing layer of a small model-context-protocol server
(`src/http.ts`). The server keeps one process-wide table, `connections`, from session id
to transport:

- `GET /sse` works out a session id (the `sessionId` query value, or a generated
  `<random fragment>-<base-36 clock>`), builds a transport with the endpoint
  `/messages?sessionId=<id>`, stores it under the id and then connects the protocol
  server to it; a failure sets status 500 unless the headers are already committed.
- The request's `close` event deletes the id from the table.
- `POST /messages` delivers the message to the transport under the named id; with a
  missing, empty or unknown id it uses the first transport the table yields, and with an
  empty table it answers 400 `{"error": "No active connections"}`; a failure while
  delivering sets status 500 unless the headers are already committed.

Modules:

- `Wrappers` (`wrappers.dfy`): `Option`.
- `Base36` (`base36.dfy`): `Number.prototype.toString(36)` on the millisecond clock
  (section 21.1.3.6 of ECMA-262) and its inverse.
- `SessionIds` (`session_ids.dfy`): `String.prototype.substring`, id resolution, and
  reading the clock back out of a generated id.
- `Registry` (`registry.dfy`): the `connections` Map as an insertion-ordered list of
  (id, transport) pairs with distinct ids. `Put`, `Remove` and `Lookup` follow
  `Map.prototype.set`, `delete` and `get` (section 24.1 of ECMA-262): set on an existing
  key keeps its position. `SelectRoute` is the POST handler's choice.
- `Ordering` (`ordering.dfy`): a history of opens and closes, replayed into the table.
  An id is live from the open that found it absent until its next close. The replayed
  table holds exactly the live ids, ordered by when their current run began.
- `Connections` (`connections.dfy`): the class `SessionRegistry`. It holds the table and
  has the methods `Open`, `Close` and `Route`. Its ghost history is the sequence of opens
  and closes that built the table.
- `Http` (`http.dfy`): transports, the response record and its headers-sent guard, and the
  handlers `HandleSse`, `OnClose` and `HandlePost`. They keep the invariant `Routable`:
  every id is non-empty, and its transport was built with the endpoint for that id.
- `Scenarios` (`scenarios.dfy`): fixed sequences of opens, posts and closes. Their results
  follow from the handlers' contracts alone.

The random text (`Math.random().toString(36)`), the clock (`Date.now()`) and the SDK
calls are parameters. For `server.connect` and `transport.handlePostMessage`, the
parameters say whether the call committed the response headers and whether it returned
or threw, with the error's message.

Behaviour of the code worth noting:

- The POST fallback goes to the earliest-inserted live entry however many sessions are
  open. It is not limited to a sole session.
- The `close` listener is attached after `await server.connect(...)` returns.
- The handlers have no keepalive timer and no CORS or OPTIONS handling.

## Model

| member | source | states |
|---|---|---|
| `Base36.DigitValue` | src/http.ts:22 | a base-36 digit character has a value below 36, and the value is zero exactly for '0' |
| `Base36.Digit` | src/http.ts:22 | the character rendered for a digit value is a base-36 digit that reads back as that value |
| `Base36.DigitOfValue` | src/http.ts:22 | rendering a digit character's value gives back the same character |
| `Base36.ToBase36` | src/http.ts:22 | the clock's radix-36 text is non-empty, digits only, with no leading zero |
| `Base36.FromToBase36` | src/http.ts:22 | reading the radix-36 text of a clock value gives back that value |
| `Base36.ToFromBase36` | src/http.ts:22 | every canonical digit string is the radix-36 text of its own value (the other direction of the round trip) |
| `Base36.ToBase36Injective` | src/http.ts:22 | distinct clock values render to distinct texts |
| `SessionIds.JsSubstring` | src/http.ts:22 | `substring` never yields more characters than its input |
| `SessionIds.RandomFragment` | src/http.ts:22 | the fragment has at most 13 characters, and for a random text of 15 or more characters it is characters 2 to 14 |
| `SessionIds.GeneratedId` | src/http.ts:22 | the generated id starts with the fragment followed by `-`, and the clock value can be read back from it |
| `SessionIds.RandomFragmentSlice` | src/http.ts:22 | the random fragment is characters 2 to 14 of the random text, clamped to its length, so at most 13 characters |
| `SessionIds.RandomFragmentSkipsLeadingZeroPoint` | src/http.ts:22 | for random text "0." followed by digits, the fragment is the first 13 (or fewer) of those digits |
| `SessionIds.ResolveSessionId` | src/http.ts:21-22 | a present, non-empty query value is used verbatim; the resolved id is never empty |
| `SessionIds.GeneratedIdForm` | src/http.ts:21-22 | a missing or empty query value yields `<fragment>-<base-36 clock>`, and the clock value can be read back from the id |
| `SessionIds.GeneratedIdInjective` | src/http.ts:22 | two generated ids are equal only when their fragments and their clock values are equal |
| `Registry.KeysCount` | src/http.ts:58 | with distinct ids, the number of entries is the number of ids present |
| `Registry.Lookup` | src/http.ts:67 | `get` finds a value exactly when the key is present, and the value is the one stored with that key |
| `Registry.Put` | src/http.ts:27 | after `set` the new pair is in the table, and every other pair was already there |
| `Registry.Remove` | src/http.ts:42 | `delete` adds no pair and never grows the table |
| `Registry.PutAppendsNewKey` | src/http.ts:27 | setting a new key appends its pair at the end, after all earlier insertions |
| `Registry.PutUpdatesInPlace` | src/http.ts:27 | setting a live key replaces its value at its original position, and nothing else changes |
| `Registry.PutLookup` | src/http.ts:27 | after opening, the id looks up the new transport and every other id looks up what it did before |
| `Registry.PutKeepsDistinct` | src/http.ts:27 | `set` keeps ids distinct |
| `Registry.PutExistingKeepsSize` | src/http.ts:27 | reusing a live id adds no second entry and leaves every id where it was |
| `Registry.RemoveAbsent` | src/http.ts:41-42 | deleting an absent id leaves the table unchanged |
| `Registry.RemoveDropsEntry` | src/http.ts:42 | deleting a present id drops exactly its entry and keeps the others in order |
| `Registry.RemoveKeepsDistinct` | src/http.ts:42 | `delete` keeps ids distinct |
| `Registry.RemoveLookup` | src/http.ts:42 | after a close the id is gone and every other id looks up what it did before |
| `Registry.RemoveIdempotent` | src/http.ts:40-44 | a repeated close changes nothing |
| `Registry.StaleCloseEvictsReplacement` | src/http.ts:27-44 | a reused id maps to the newer transport, and the older connection's close removes it |
| `Registry.SelectRoute` | src/http.ts:56-68 | nothing is delivered exactly when the table is empty; a delivered transport is one stored in the table |
| `Registry.RouteToNamedSession` | src/http.ts:56-68 | a known, non-empty id is delivered to exactly the transport stored under it |
| `Registry.RouteFallback` | src/http.ts:56-63 | a missing, empty or unknown id goes to the earliest-inserted entry when the table is non-empty |
| `Registry.RouteSoleSession` | src/http.ts:56-68 | with exactly one session open, every message is delivered to it |
| `Registry.FallbackSurvivesOpen` | src/http.ts:27 | opening another id never displaces the earliest entry |
| `Registry.FallbackSurvivesOtherClose` | src/http.ts:42 | closing any id but the earliest leaves the earliest entry first |
| `Registry.FallbackPassesOnClose` | src/http.ts:42 | closing the earliest id makes the next-earliest entry first |
| `Registry.ClosedSessionNotNamed` | src/http.ts:40-59 | after its close, a message naming an id falls back to the earliest survivor, or is refused when none is left |
| `Ordering.Apply` | src/http.ts:27-42 | an open (`set`) or a close (`delete`) keeps ids distinct; afterwards the id looks up the opened transport, or nothing after a close |
| `Ordering.Replay` | src/http.ts:16-44 | the table built by any history of opens and closes, from the empty Map, has distinct ids |
| `Ordering.LiveSince` | src/http.ts:27-42 | when an id is live, the index it reports is an open of that id in the history |
| `Ordering.ReplayAppend` | src/http.ts:27-42 | each open or close acts on the table left by the events before it |
| `Ordering.ReopenStep` | src/http.ts:27 | reopening a live id keeps ids distinct, the live set and the order of runs |
| `Ordering.OpenNewStep` | src/http.ts:27 | opening an absent id appends it as the newest live run and keeps the table ordered |
| `Ordering.CloseStep` | src/http.ts:40-44 | a close ends only that id's run and keeps the table ordered |
| `Ordering.ReplayOrdered` | src/http.ts:16-44 | after any history the ids are distinct, the table holds exactly the live ids, and they are listed in the order their current runs began |
| `Ordering.FallbackIsEarliestLive` | src/http.ts:56-63 | a message naming no live session goes to the first entry, which is the live session whose current run began earliest |
| `Connections.SessionRegistry.constructor` | src/http.ts:16 | the table and its history start empty |
| `Connections.SessionRegistry.Has` | src/http.ts:56 | `has` is true exactly when the id is present |
| `Connections.SessionRegistry.Get` | src/http.ts:67 | `get` of a present id returns the transport stored with it |
| `Connections.SessionRegistry.Size` | src/http.ts:58 | `size` is zero exactly when the table is empty, and it counts the ids present |
| `Connections.SessionRegistry.FirstValue` | src/http.ts:62 | `values().next().value` is the first entry's transport, and that entry's id is the live id whose current run began earliest |
| `Connections.SessionRegistry.Open` | src/http.ts:27 | the open is appended to the history; the new table is `set` of the old one: the id maps to the transport, other ids are unchanged, ids stay distinct |
| `Connections.SessionRegistry.Close` | src/http.ts:40-44 | the close is appended to the history; it reports whether the id was present; the new table is `delete` of the old one; the id is gone and the other ids are unchanged |
| `Connections.SessionRegistry.Route` | src/http.ts:56-68 | it returns `SelectRoute` of the table without changing it: the named transport when the id is known, NoActive exactly when the table is empty, and otherwise the transport of the first entry, whose id is the live id whose current run began earliest |
| `Http.EndpointFor` | src/http.ts:26 | the endpoint text is `/messages?sessionId=` followed by the id, so the id can be read back from it |
| `Http.AfterForeignCall` | src/http.ts:30-34 | an SDK call that writes to the response commits its headers and leaves status and body as the handler had them |
| `Http.EndpointNamesSession` | src/http.ts:26 | the endpoint texts built for two ids are equal exactly when the ids are equal |
| `Http.ErrorText` | src/http.ts:35 | the error text is the message, or a non-empty default when the message is empty |
| `Http.FailUnlessCommitted` | src/http.ts:34-36 | with headers committed the response is left exactly as it was; otherwise it gets the given status and body |
| `Http.HandleSse` | src/http.ts:19-37 | the id is the resolved one; the table is `set` with its transport whether connect returns or throws; status is 500 only when connect threw before committing headers |
| `Http.OnClose` | src/http.ts:40-45 | the table is `delete` of the old one by id; the invariant is kept; a second close reports nothing removed |
| `Http.HandlePost` | src/http.ts:49-75 | an empty table gives 400 "No active connections"; a known id reaches the transport built with that id's endpoint; otherwise the first entry, whose id is the live id whose current run began earliest; a throw sets 500 only while headers are uncommitted; the table is not changed |
| `Scenarios.RoutingBetweenTwoSessions` | src/http.ts:56-68 | with two sessions open, each named message reaches its own stream and an unnamed one reaches the earlier |
| `Scenarios.CloseThenPost` | src/http.ts:40-59 | a duplicate close removes nothing, and a message for the closed last session gets 400 |
| `Scenarios.ConnectFailureStaysRegistered` | src/http.ts:24-37 | a connect that throws before committing headers gives 500 "Server error: Unknown error", yet the id still receives messages |
| `Scenarios.FallbackAfterReopen` | src/http.ts:27-63 | after a closes and reopens, an unnamed message goes to b, whose current run began first |
| `Scenarios.StaleCloseEvictsNewer` | src/http.ts:40-44 | after an id is reused, the first connection's close leaves no transport under that id |

## Left out

- Express wiring, `app.listen`, the `PORT` setting and all console logging
  (src/http.ts:12-13, 78-88): bootstrap and I/O.
- `SSEServerTransport`, `server.connect` and `handlePostMessage` internals: SDK code.
  Each call is reduced to two facts: whether it committed the headers and whether it
  returned or threw. The events and acknowledgements the SDK writes are not modelled.
- HandleSse: the 200 status and stream headers that `connect` writes are not recorded.
  When the SDK commits the headers, the model's status stays `None`; the model only
  tracks what the handler itself sets.
- HandlePost: the same applies to the acknowledgement that `handlePostMessage` writes.
- What the SDK tells the client about the endpoint: the model records only the text the
  transport is built with (src/http.ts:26), not the event the SDK writes to announce it.
- A throw from the `SSEServerTransport` constructor is not modelled. The model assumes
  that building the transport always succeeds. It does not cover the path where such a
  throw skips the insert and goes straight to the guarded 500.
- JSON body parsing by `express.json()`: library behaviour. The message body is not
  modelled.
- Query values that are not strings: a repeated `sessionId` parameter parses to an
  array. The query value is modelled as an optional string.
- How a client's POST URL is parsed back into `sessionId`: the endpoint text embeds the id
  without percent-encoding, and that parsing is library behaviour.
- `Math.random()` and `Date.now()`: the random text and the clock are parameters.
- Interleaving of the async handlers, and a close that fires before the listener is
  attached after `await server.connect(...)`: concurrency, not sequential logic. Each
  table operation is modelled as one atomic step.
- `src/server.ts` (tool, resource and prompt registrations), `src/stdio.ts` (the
  standard-stream binding) and `test-client.js` (a demo driver): glue around the SDK.
