/**
  Insertion order of the session table over a whole history of opens and closes.

  An id is live from the open that found it absent until the next close of that id;
  reopening a live id does not start a new run (Map.prototype.set keeps the key's
  position). The table built by replaying a history holds exactly the live ids, ordered
  by the start of their current run, so the entry the POST fallback uses is the
  earliest-inserted session still open.
 */
module Ordering {
  import opened Wrappers
  import opened Registry

  datatype Event<T> = Opened(id: string, transport: T) | Closed(id: string)

  /** The GET handler's set, or the close listener's delete. */
  function Apply<T>(e: Entries<T>, ev: Event<T>): (r: Entries<T>)
    ensures DistinctKeys(e) ==> DistinctKeys(r)
    ensures DistinctKeys(e) ==> Lookup(r, ev.id) == if ev.Opened? then Some(ev.transport) else None
  {
    match ev
    case Opened(id, t) =>
      PutLookup(e, id, t, id);
      assert DistinctKeys(e) ==> DistinctKeys(Put(e, id, t)) by {
        if DistinctKeys(e) {
          PutKeepsDistinct(e, id, t);
        }
      }
      Put(e, id, t)
    case Closed(id) =>
      assert DistinctKeys(e) ==> DistinctKeys(Remove(e, id)) && Lookup(Remove(e, id), id) == None by {
        if DistinctKeys(e) {
          RemoveKeepsDistinct(e, id);
          RemoveLookup(e, id, id);
        }
      }
      Remove(e, id)
  }

  /** The table after a history of events, starting from the empty table. */
  function Replay<T>(events: seq<Event<T>>): (r: Entries<T>)
    ensures DistinctKeys(r)
    decreases |events|
  {
    if events == [] then [] else Apply(Replay(events[..|events| - 1]), events[|events| - 1])
  }

  /** The index of the open that began id's current run, if id is live after the events. */
  function LiveSince<T>(events: seq<Event<T>>, id: string): (r: Option<nat>)
    ensures r.Some? ==> r.value < |events| && events[r.value].Opened? && events[r.value].id == id
    decreases |events|
  {
    if events == [] then None
    else
      var n := |events| - 1;
      var prev := LiveSince(events[..n], id);
      match events[n]
      case Opened(k, _) => if k == id && prev.None? then Some(n) else prev
      case Closed(k) => if k == id then None else prev
  }

  /** Replaying one more event applies it to the table the earlier events built. */
  lemma ReplayAppend<T>(events: seq<Event<T>>, ev: Event<T>)
    ensures Replay(events + [ev]) == Apply(Replay(events), ev)
  {
    assert (events + [ev])[..|events|] == events;
  }

  ghost predicate LiveKeys<T>(r: Entries<T>, events: seq<Event<T>>) {
    forall k :: HasKey(r, k) <==> LiveSince(events, k).Some?
  }

  ghost predicate InsertionOrdered<T>(r: Entries<T>, events: seq<Event<T>>) {
    && (forall i :: 0 <= i < |r| ==> LiveSince(events, r[i].0).Some?)
    && (forall i, j :: 0 <= i < j < |r| ==>
          LiveSince(events, r[i].0).value < LiveSince(events, r[j].0).value)
  }

  /** One more event leaves every other id's run where it was. */
  lemma LiveSinceOthers<T>(events: seq<Event<T>>, id: string)
    requires events != [] && events[|events| - 1].id != id
    ensures LiveSince(events, id) == LiveSince(events[..|events| - 1], id)
  {
  }

  ghost predicate Ordered<T>(r: Entries<T>, events: seq<Event<T>>) {
    DistinctKeys(r) && LiveKeys(r, events) && InsertionOrdered(r, events)
  }

  /** Reopening a live id: its entry keeps its place and no run starts or ends. */
  lemma ReopenStep<T>(events: seq<Event<T>>)
    requires events != [] && events[|events| - 1].Opened?
    requires Ordered(Replay(events[..|events| - 1]), events[..|events| - 1])
    requires HasKey(Replay(events[..|events| - 1]), events[|events| - 1].id)
    ensures Ordered(Replay(events), events)
  {
    var n := |events| - 1;
    PutKeepsDistinct(Replay(events[..n]), events[n].id, events[n].transport);
    OpenKeepsLiveKeys(events);
    ReopenKeepsOrder(events);
  }

  /** Opening an absent id: its entry goes last and its run starts now, after all others. */
  lemma OpenNewStep<T>(events: seq<Event<T>>)
    requires events != [] && events[|events| - 1].Opened?
    requires Ordered(Replay(events[..|events| - 1]), events[..|events| - 1])
    requires !HasKey(Replay(events[..|events| - 1]), events[|events| - 1].id)
    ensures Ordered(Replay(events), events)
  {
    var n := |events| - 1;
    PutKeepsDistinct(Replay(events[..n]), events[n].id, events[n].transport);
    OpenKeepsLiveKeys(events);
    OpenNewKeepsOrder(events);
  }

  lemma OpenKeepsLiveKeys<T>(events: seq<Event<T>>)
    requires events != [] && events[|events| - 1].Opened?
    requires LiveKeys(Replay(events[..|events| - 1]), events[..|events| - 1])
    ensures LiveKeys(Replay(events), events)
  {
    var n := |events| - 1;
    var p := events[..n];
    var k, t := events[n].id, events[n].transport;
    forall id ensures HasKey(Replay(events), id) <==> LiveSince(events, id).Some? {
      PutLookup(Replay(p), k, t, id);
      if id != k {
        LiveSinceOthers(events, id);
      }
    }
  }

  lemma ReopenKeepsOrder<T>(events: seq<Event<T>>)
    requires events != [] && events[|events| - 1].Opened?
    requires DistinctKeys(Replay(events[..|events| - 1]))
    requires InsertionOrdered(Replay(events[..|events| - 1]), events[..|events| - 1])
    requires HasKey(Replay(events[..|events| - 1]), events[|events| - 1].id)
    ensures InsertionOrdered(Replay(events), events)
  {
    var n := |events| - 1;
    var p := events[..n];
    var before := Replay(p);
    var k, t := events[n].id, events[n].transport;
    var i :| 0 <= i < |before| && before[i].0 == k;
    PutUpdatesInPlace(before, k, t, i);
    var r := Replay(events);
    assert |r| == |before|;
    forall a | 0 <= a < |r|
      ensures r[a].0 == before[a].0
      ensures LiveSince(events, r[a].0) == LiveSince(p, before[a].0)
    {
      if before[a].0 != k {
        LiveSinceOthers(events, before[a].0);
      }
    }
    TransferOrder(r, before, p, events);
  }

  lemma OpenNewKeepsOrder<T>(events: seq<Event<T>>)
    requires events != [] && events[|events| - 1].Opened?
    requires InsertionOrdered(Replay(events[..|events| - 1]), events[..|events| - 1])
    requires !HasKey(Replay(events[..|events| - 1]), events[|events| - 1].id)
    requires LiveSince(events[..|events| - 1], events[|events| - 1].id).None?
    ensures InsertionOrdered(Replay(events), events)
  {
    var n := |events| - 1;
    var p := events[..n];
    var before := Replay(p);
    var k, t := events[n].id, events[n].transport;
    PutAppendsNewKey(before, k, t);
    var r := Replay(events);
    assert r == before + [(k, t)];
    assert LiveSince(events, k) == Some(n);
    forall a | 0 <= a < |before|
      ensures r[a].0 == before[a].0
      ensures LiveSince(events, r[a].0) == LiveSince(p, before[a].0)
    {
      assert before[a].0 != k;
      LiveSinceOthers(events, before[a].0);
    }
    AppendOrder(r, before, p, events);
  }

  /** Same ids at the same places, with unchanged runs: the order carries over. */
  lemma TransferOrder<T>(r: Entries<T>, before: Entries<T>, p: seq<Event<T>>, events: seq<Event<T>>)
    requires |r| == |before| && InsertionOrdered(before, p)
    requires forall a :: 0 <= a < |r| ==>
               r[a].0 == before[a].0 && LiveSince(events, r[a].0) == LiveSince(p, before[a].0)
    ensures InsertionOrdered(r, events)
  {
    forall a, b | 0 <= a < b < |r|
      ensures LiveSince(events, r[a].0).Some? && LiveSince(events, r[b].0).Some?
      ensures LiveSince(events, r[a].0).value < LiveSince(events, r[b].0).value
    {
      assert LiveSince(p, before[a].0).value < LiveSince(p, before[b].0).value;
    }
  }

  /** A new last entry whose run starts after every run already in the table. */
  lemma AppendOrder<T>(r: Entries<T>, before: Entries<T>, p: seq<Event<T>>, events: seq<Event<T>>)
    requires |r| == |before| + 1 && InsertionOrdered(before, p)
    requires forall a :: 0 <= a < |before| ==>
               r[a].0 == before[a].0 && LiveSince(events, r[a].0) == LiveSince(p, before[a].0)
    requires LiveSince(events, r[|before|].0) == Some(|p|)
    ensures InsertionOrdered(r, events)
  {
    forall a, b | 0 <= a < b < |r|
      ensures LiveSince(events, r[a].0).Some? && LiveSince(events, r[b].0).Some?
      ensures LiveSince(events, r[a].0).value < LiveSince(events, r[b].0).value
    {
      if b < |before| {
        assert LiveSince(p, before[a].0).value < LiveSince(p, before[b].0).value;
      } else {
        assert LiveSince(p, before[a].0).Some?;
      }
    }
  }

  /** Closing an id ends its run and drops its entry; the others keep their order. */
  lemma CloseStep<T>(events: seq<Event<T>>)
    requires events != [] && events[|events| - 1].Closed?
    requires Ordered(Replay(events[..|events| - 1]), events[..|events| - 1])
    ensures Ordered(Replay(events), events)
  {
    RemoveKeepsDistinct(Replay(events[..|events| - 1]), events[|events| - 1].id);
    CloseKeepsLiveKeys(events);
    CloseKeepsOrder(events);
  }

  lemma CloseKeepsLiveKeys<T>(events: seq<Event<T>>)
    requires events != [] && events[|events| - 1].Closed?
    requires DistinctKeys(Replay(events[..|events| - 1]))
    requires LiveKeys(Replay(events[..|events| - 1]), events[..|events| - 1])
    ensures LiveKeys(Replay(events), events)
  {
    var n := |events| - 1;
    var p := events[..n];
    var before := Replay(p);
    var k := events[n].id;
    forall id ensures HasKey(Replay(events), id) <==> LiveSince(events, id).Some? {
      RemoveLookup(before, k, id);
      if id != k {
        LiveSinceOthers(events, id);
      }
    }
  }

  lemma CloseKeepsOrder<T>(events: seq<Event<T>>)
    requires events != [] && events[|events| - 1].Closed?
    requires DistinctKeys(Replay(events[..|events| - 1]))
    requires InsertionOrdered(Replay(events[..|events| - 1]), events[..|events| - 1])
    ensures InsertionOrdered(Replay(events), events)
  {
    var n := |events| - 1;
    var before := Replay(events[..n]);
    var k := events[n].id;
    if HasKey(before, k) {
      var i :| 0 <= i < |before| && before[i].0 == k;
      ClosePresentKeepsOrder(events, i);
    } else {
      RemoveAbsent(before, k);
      var r := Replay(events);
      forall a | 0 <= a < |r|
        ensures r[a].0 == before[a].0
        ensures LiveSince(events, r[a].0) == LiveSince(events[..n], before[a].0)
      {
        LiveSinceOthers(events, before[a].0);
      }
      TransferOrder(r, before, events[..n], events);
    }
  }

  lemma ClosePresentKeepsOrder<T>(events: seq<Event<T>>, i: nat)
    requires events != [] && events[|events| - 1].Closed?
    requires DistinctKeys(Replay(events[..|events| - 1]))
    requires InsertionOrdered(Replay(events[..|events| - 1]), events[..|events| - 1])
    requires i < |Replay(events[..|events| - 1])|
    requires Replay(events[..|events| - 1])[i].0 == events[|events| - 1].id
    ensures InsertionOrdered(Replay(events), events)
  {
    var n := |events| - 1;
    var p := events[..n];
    var before := Replay(p);
    var k := events[n].id;
    RemoveDropsEntry(before, k, i);
    forall a | 0 <= a < |before| && a != i
      ensures LiveSince(events, before[a].0) == LiveSince(p, before[a].0)
    {
      LiveSinceOthers(events, before[a].0);
    }
    DropKeepsOrder(before, i, p, events);
  }

  /** Dropping one entry keeps the survivors ordered, when their runs are unchanged. */
  lemma DropKeepsOrder<T>(before: Entries<T>, i: nat, p: seq<Event<T>>, events: seq<Event<T>>)
    requires i < |before| && InsertionOrdered(before, p)
    requires forall a :: 0 <= a < |before| && a != i ==>
               LiveSince(events, before[a].0) == LiveSince(p, before[a].0)
    ensures InsertionOrdered(before[..i] + before[i + 1..], events)
  {
    var r := before[..i] + before[i + 1..];
    forall a | 0 <= a < |r|
      ensures r[a] == before[if a < i then a else a + 1]
    {
    }
    forall a, b | 0 <= a < b < |r|
      ensures LiveSince(events, r[a].0).Some? && LiveSince(events, r[b].0).Some?
      ensures LiveSince(events, r[a].0).value < LiveSince(events, r[b].0).value
    {
      var a', b' := if a < i then a else a + 1, if b < i then b else b + 1;
      assert r[a] == before[a'] && r[b] == before[b'];
    }
    forall a | 0 <= a < |r| ensures LiveSince(events, r[a].0).Some? {
      var a' := if a < i then a else a + 1;
      assert r[a] == before[a'];
    }
  }

  /**
    The table after any history has distinct ids, holds exactly the live ids, and lists
    them in the order their current runs began.
   */
  lemma {:induction false} ReplayOrdered<T>(events: seq<Event<T>>)
    ensures DistinctKeys(Replay(events))
    ensures LiveKeys(Replay(events), events)
    ensures InsertionOrdered(Replay(events), events)
    decreases |events|
  {
    if events != [] {
      var n := |events| - 1;
      ReplayOrdered(events[..n]);
      if events[n].Closed? {
        CloseStep(events);
      } else if HasKey(Replay(events[..n]), events[n].id) {
        ReopenStep(events);
      } else {
        OpenNewStep(events);
      }
    }
  }

  /** The id's current run began no later than that of any other live id. */
  ghost predicate EarliestLive<T>(events: seq<Event<T>>, id: string) {
    && LiveSince(events, id).Some?
    && forall k :: LiveSince(events, k).Some? ==> LiveSince(events, id).value <= LiveSince(events, k).value
  }

  /**
    A message with a missing, empty or unknown id goes to the live session whose current
    run began first.
   */
  lemma FallbackIsEarliestLive<T>(events: seq<Event<T>>, query: Option<string>)
    requires Replay(events) != []
    requires query.None? || query.value == [] || LiveSince(events, query.value).None?
    ensures SelectRoute(Replay(events), query) == Delivered(Replay(events)[0].1)
    ensures EarliestLive(events, Replay(events)[0].0)
  {
    var r := Replay(events);
    ReplayOrdered(events);
    forall k | LiveSince(events, k).Some?
      ensures LiveSince(events, r[0].0).value <= LiveSince(events, k).value
    {
      assert HasKey(r, k);
      var j :| 0 <= j < |r| && r[j].0 == k;
    }
  }
}
