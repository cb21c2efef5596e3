/**
  The process-wide `connections` table of the HTTP binding, mutated in place by the
  handlers. Alongside the table it keeps, as ghost state, the history of opens and closes
  that built it, so that the POST fallback can be stated in terms of the live id whose
  current run began earliest.
 */
module Connections {
  import opened Wrappers
  import opened Registry
  import opened Ordering

  class SessionRegistry<T> {
    var entries: Entries<T>
    ghost var history: seq<Event<T>>

    /** The table is the replay of its history, so its ids are distinct. */
    ghost predicate Valid()
      reads this
    {
      DistinctKeys(entries) && entries == Replay(history)
    }

    constructor ()
      ensures Valid() && entries == [] && history == []
    {
      entries := [];
      history := [];
    }

    /** connections.has(id) */
    function Has(id: string): (b: bool)
      reads this
      ensures b <==> HasKey(entries, id)
    {
      Lookup(entries, id).Some?
    }

    /** connections.get(id) */
    function Get(id: string): (v: T)
      reads this
      requires Has(id)
      ensures (id, v) in entries
      ensures Valid() ==> forall i :: 0 <= i < |entries| && entries[i].0 == id ==> entries[i].1 == v
    {
      Lookup(entries, id).value
    }

    /** connections.size: the number of ids present; zero exactly when the table is empty. */
    function Size(): (n: nat)
      reads this
      ensures n == 0 <==> entries == []
      ensures Valid() ==> n == |Keys(entries)|
    {
      assert Valid() ==> |Keys(entries)| == |entries| by {
        if Valid() {
          KeysCount(entries);
        }
      }
      |entries|
    }

    /**
      connections.values().next().value: the transport of the first entry, whose id is the
      live id whose current run began earliest.
     */
    function FirstValue(): (t: T)
      reads this
      requires Valid() && entries != []
      ensures Lookup(entries, entries[0].0) == Some(t)
      ensures EarliestLive(history, entries[0].0)
    {
      FallbackIsEarliestLive(history, None);
      entries[0].1
    }

    /** The GET handler's `connections.set(sessionId, transport)`. */
    method Open(id: string, t: T)
      requires Valid()
      modifies this
      ensures Valid()
      ensures history == old(history) + [Opened(id, t)]
      ensures entries == Put(old(entries), id, t)
      ensures Lookup(entries, id) == Some(t)
      ensures forall k :: k != id ==> Lookup(entries, k) == Lookup(old(entries), k)
    {
      PutKeepsDistinct(entries, id, t);
      forall k ensures Lookup(Put(entries, id, t), k) == if k == id then Some(t) else Lookup(entries, k) {
        PutLookup(entries, id, t, k);
      }
      ReplayAppend(history, Opened(id, t));
      entries := Put(entries, id, t);
      history := history + [Opened(id, t)];
    }

    /** The close listener: `if (connections.has(id)) connections.delete(id)`. */
    method Close(id: string) returns (removed: bool)
      requires Valid()
      modifies this
      ensures Valid()
      ensures history == old(history) + [Closed(id)]
      ensures removed <==> HasKey(old(entries), id)
      ensures entries == Remove(old(entries), id)
      ensures Lookup(entries, id) == None
      ensures forall k :: k != id ==> Lookup(entries, k) == Lookup(old(entries), k)
    {
      forall k ensures Lookup(Remove(entries, id), k) == if k == id then None else Lookup(entries, k) {
        RemoveLookup(entries, id, k);
      }
      ReplayAppend(history, Closed(id));
      removed := Has(id);
      if removed {
        RemoveKeepsDistinct(entries, id);
        entries := Remove(entries, id);
      } else {
        RemoveAbsent(entries, id);
      }
      history := history + [Closed(id)];
    }

    /**
      The POST handler's choice of transport; it reads the table and never changes it.
      A message that names no live session goes to the one whose current run began first.
     */
    method Route(query: Option<string>) returns (r: Route<T>)
      requires Valid()
      ensures r == SelectRoute(entries, query)
      ensures r.NoActive? <==> entries == []
      ensures query.Some? && query.value != [] && HasKey(entries, query.value) ==>
                r == Delivered(Lookup(entries, query.value).value)
      ensures entries != [] && (query.None? || query.value == [] || !HasKey(entries, query.value)) ==>
                r == Delivered(entries[0].1) && EarliestLive(history, entries[0].0)
    {
      if query.None? || query.value == [] || !Has(query.value) {
        if Size() == 0 {
          return NoActive;
        }
        return Delivered(FirstValue());
      }
      return Delivered(Get(query.value));
    }
  }
}
