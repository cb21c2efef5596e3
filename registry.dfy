/**
  The session registry: the `connections` Map of the HTTP binding, from session id to
  transport. A JavaScript Map remembers insertion order, so it is modelled as a sequence
  of (id, transport) pairs with distinct ids, earliest insertion first:
  - Put is Map.prototype.set: an existing key keeps its position and gets the new value,
    a new key goes to the end (section 24.1.3.9 of ECMA-262);
  - Remove is Map.prototype.delete: the key's entry goes, the others keep their order;
  - the first pair is what `values().next()` yields.
  The transport type T is opaque here.
 */
module Registry {
  import opened Wrappers

  type Entries<T> = seq<(string, T)>

  ghost predicate DistinctKeys<T>(e: Entries<T>) {
    forall i, j :: 0 <= i < j < |e| ==> e[i].0 != e[j].0
  }

  ghost predicate HasKey<T>(e: Entries<T>, k: string) {
    exists i :: 0 <= i < |e| && e[i].0 == k
  }

  lemma DistinctTail<T>(e: Entries<T>)
    requires DistinctKeys(e) && e != []
    ensures DistinctKeys(e[1..])
  {
    forall a, b | 0 <= a < b < |e[1..]| ensures e[1..][a].0 != e[1..][b].0 {
      assert e[1..][a] == e[a + 1] && e[1..][b] == e[b + 1];
    }
  }

  /** The ids present in the table. */
  ghost function Keys<T>(e: Entries<T>): set<string> {
    set i | 0 <= i < |e| :: e[i].0
  }

  /** With distinct ids, the table has one entry per id. */
  lemma {:induction false} KeysCount<T>(e: Entries<T>)
    requires DistinctKeys(e)
    ensures |Keys(e)| == |e|
  {
    if e != [] {
      DistinctTail(e);
      KeysCount(e[1..]);
      forall x ensures x in Keys(e) <==> x == e[0].0 || x in Keys(e[1..]) {
        if x in Keys(e) {
          var i :| 0 <= i < |e| && e[i].0 == x;
          if i > 0 {
            assert e[1..][i - 1].0 == x;
          }
        }
        if x in Keys(e[1..]) {
          var i :| 0 <= i < |e[1..]| && e[1..][i].0 == x;
          assert e[i + 1].0 == x;
        }
      }
      assert Keys(e) == {e[0].0} + Keys(e[1..]);
      assert e[0].0 !in Keys(e[1..]);
    }
  }

  /** Map.prototype.get: the value stored under k, if any. */
  function Lookup<T>(e: Entries<T>, k: string): (r: Option<T>)
    ensures r.Some? <==> HasKey(e, k)
    ensures r.Some? ==> (k, r.value) in e
    ensures r.Some? && DistinctKeys(e) ==> forall i :: 0 <= i < |e| && e[i].0 == k ==> e[i].1 == r.value
  {
    if e == [] then None
    else if e[0].0 == k then Some(e[0].1)
    else
      var r := Lookup(e[1..], k);
      assert HasKey(e[1..], k) ==> HasKey(e, k) by {
        if HasKey(e[1..], k) {
          var i :| 0 <= i < |e[1..]| && e[1..][i].0 == k;
          assert e[i + 1].0 == k;
        }
      }
      assert HasKey(e, k) ==> HasKey(e[1..], k) by {
        if HasKey(e, k) {
          var i :| 0 <= i < |e| && e[i].0 == k;
          assert i > 0 && e[1..][i - 1].0 == k;
        }
      }
      assert DistinctKeys(e) ==> DistinctKeys(e[1..]) by {
        if DistinctKeys(e) {
          DistinctTail(e);
        }
      }
      r
  }

  /** Map.prototype.set. */
  function Put<T>(e: Entries<T>, k: string, v: T): (r: Entries<T>)
    ensures (k, v) in r
    ensures forall p :: p in r ==> p in e || p == (k, v)
  {
    if e == [] then [(k, v)]
    else if e[0].0 == k then [(k, v)] + e[1..]
    else [e[0]] + Put(e[1..], k, v)
  }

  /** Map.prototype.delete: drops the entry for k, if any. */
  function Remove<T>(e: Entries<T>, k: string): (r: Entries<T>)
    ensures forall p :: p in r ==> p in e
    ensures |r| <= |e|
  {
    if e == [] then []
    else if e[0].0 == k then e[1..]
    else [e[0]] + Remove(e[1..], k)
  }

  // ---------------------------------------------------------------------------
  // Map.set: a new key is appended, an existing key is updated in place

  lemma {:induction false} PutAppendsNewKey<T>(e: Entries<T>, k: string, v: T)
    requires !HasKey(e, k)
    ensures Put(e, k, v) == e + [(k, v)]
  {
    if e != [] {
      assert e[0].0 != k;
      PutAppendsNewKey(e[1..], k, v);
      assert e == [e[0]] + e[1..];
    }
  }

  lemma {:induction false} PutUpdatesInPlace<T>(e: Entries<T>, k: string, v: T, i: nat)
    requires DistinctKeys(e)
    requires i < |e| && e[i].0 == k
    ensures Put(e, k, v) == e[i := (k, v)]
  {
    if i == 0 {
      assert e[i := (k, v)] == [(k, v)] + e[1..];
    } else {
      assert e[0].0 != k;
      DistinctTail(e);
      PutUpdatesInPlace(e[1..], k, v, i - 1);
      assert e[i := (k, v)] == [e[0]] + e[1..][i - 1 := (k, v)];
    }
  }

  lemma {:induction false} PutLookup<T>(e: Entries<T>, k: string, v: T, k': string)
    ensures Lookup(Put(e, k, v), k') == if k' == k then Some(v) else Lookup(e, k')
  {
    if e != [] && e[0].0 != k {
      PutLookup(e[1..], k, v, k');
      assert Put(e, k, v)[1..] == Put(e[1..], k, v);
    } else if e != [] {
      assert Put(e, k, v)[1..] == e[1..];
    }
  }

  lemma {:induction false} PutKeepsDistinct<T>(e: Entries<T>, k: string, v: T)
    requires DistinctKeys(e)
    ensures DistinctKeys(Put(e, k, v))
  {
    if HasKey(e, k) {
      var i :| 0 <= i < |e| && e[i].0 == k;
      PutUpdatesInPlace(e, k, v, i);
    } else {
      PutAppendsNewKey(e, k, v);
      var r := Put(e, k, v);
      forall a, b | 0 <= a < b < |r| ensures r[a].0 != r[b].0 {
        if b == |e| {
          assert r[a] == e[a];
        } else {
          assert r[a] == e[a] && r[b] == e[b];
        }
      }
    }
  }

  /** Reopening a live id does not add a second entry. */
  lemma PutExistingKeepsSize<T>(e: Entries<T>, k: string, v: T)
    requires DistinctKeys(e) && HasKey(e, k)
    ensures |Put(e, k, v)| == |e|
    ensures forall i :: 0 <= i < |e| ==> Put(e, k, v)[i].0 == e[i].0
  {
    var i :| 0 <= i < |e| && e[i].0 == k;
    PutUpdatesInPlace(e, k, v, i);
  }

  // ---------------------------------------------------------------------------
  // Map.delete

  lemma {:induction false} RemoveAbsent<T>(e: Entries<T>, k: string)
    requires !HasKey(e, k)
    ensures Remove(e, k) == e
  {
    if e != [] {
      assert e[0].0 != k;
      RemoveAbsent(e[1..], k);
      assert e == [e[0]] + e[1..];
    }
  }

  /** Deleting a present key drops exactly its entry and keeps the order of the others. */
  lemma {:induction false} RemoveDropsEntry<T>(e: Entries<T>, k: string, i: nat)
    requires DistinctKeys(e)
    requires i < |e| && e[i].0 == k
    ensures Remove(e, k) == e[..i] + e[i + 1..]
  {
    if i > 0 {
      assert e[0].0 != k;
      DistinctTail(e);
      RemoveDropsEntry(e[1..], k, i - 1);
      assert e[..i] + e[i + 1..] == [e[0]] + (e[1..][..i - 1] + e[1..][i..]);
    }
  }

  lemma RemoveKeepsDistinct<T>(e: Entries<T>, k: string)
    requires DistinctKeys(e)
    ensures DistinctKeys(Remove(e, k))
  {
    if HasKey(e, k) {
      var i :| 0 <= i < |e| && e[i].0 == k;
      RemoveDropsEntry(e, k, i);
      var r := Remove(e, k);
      forall a, b | 0 <= a < b < |r| ensures r[a].0 != r[b].0 {
        var a' := if a < i then a else a + 1;
        var b' := if b < i then b else b + 1;
        assert r[a] == e[a'] && r[b] == e[b'];
      }
    } else {
      RemoveAbsent(e, k);
    }
  }

  lemma {:induction false} RemoveLookup<T>(e: Entries<T>, k: string, k': string)
    requires DistinctKeys(e)
    ensures Lookup(Remove(e, k), k') == if k' == k then None else Lookup(e, k')
  {
    if e != [] {
      DistinctTail(e);
      if e[0].0 != k {
        RemoveLookup(e[1..], k, k');
        assert Remove(e, k)[1..] == Remove(e[1..], k);
      }
    }
  }

  /** A repeated close is a no-op. */
  lemma RemoveIdempotent<T>(e: Entries<T>, k: string)
    requires DistinctKeys(e)
    ensures Remove(Remove(e, k), k) == Remove(e, k)
  {
    RemoveLookup(e, k, k);
    RemoveAbsent(Remove(e, k), k);
  }

  /**
    Removal is keyed by id, not by transport: once a second open has reused an id, the
    close of the first connection removes the second connection's entry.
   */
  lemma StaleCloseEvictsReplacement<T>(e: Entries<T>, k: string, older: T, newer: T)
    requires DistinctKeys(e)
    ensures Lookup(Put(Put(e, k, older), k, newer), k) == Some(newer)
    ensures Lookup(Remove(Put(Put(e, k, older), k, newer), k), k) == None
  {
    PutKeepsDistinct(e, k, older);
    PutKeepsDistinct(Put(e, k, older), k, newer);
    PutLookup(Put(e, k, older), k, newer, k);
    RemoveLookup(Put(Put(e, k, older), k, newer), k, k);
  }

  // ---------------------------------------------------------------------------
  // Route selection for an inbound message

  datatype Route<T> = Delivered(transport: T) | NoActive

  /**
    The transport a POST goes to: the one registered under the query's id when that id
    is present and non-empty and known; otherwise the earliest-inserted entry; NoActive
    only when the table is empty.
   */
  function SelectRoute<T>(e: Entries<T>, query: Option<string>): (r: Route<T>)
    ensures r.NoActive? <==> e == []
    ensures r.Delivered? ==> exists i :: 0 <= i < |e| && e[i].1 == r.transport
  {
    if query.Some? && query.value != [] && Lookup(e, query.value).Some? then
      var t := Lookup(e, query.value).value;
      assert exists i :: 0 <= i < |e| && e[i] == (query.value, t);
      Delivered(t)
    else if e == [] then NoActive
    else Delivered(e[0].1)
  }

  /** A known, non-empty id is delivered to exactly the transport stored under it. */
  lemma RouteToNamedSession<T>(e: Entries<T>, id: string, i: nat)
    requires DistinctKeys(e)
    requires id != [] && i < |e| && e[i].0 == id
    ensures SelectRoute(e, Some(id)) == Delivered(e[i].1)
  {
    assert HasKey(e, id);
  }

  /** A missing, empty or unknown id goes to the earliest-inserted entry. */
  lemma RouteFallback<T>(e: Entries<T>, query: Option<string>)
    requires e != []
    requires query.None? || query.value == [] || !HasKey(e, query.value)
    ensures SelectRoute(e, query) == Delivered(e[0].1)
  {
  }

  /** With exactly one session open, every message reaches that session. */
  lemma RouteSoleSession<T>(e: Entries<T>, query: Option<string>)
    requires |e| == 1
    ensures SelectRoute(e, query) == Delivered(e[0].1)
  {
    if query.Some? && query.value != [] && Lookup(e, query.value).Some? {
      assert (query.value, Lookup(e, query.value).value) in e;
    }
  }

  /** A session opened later never becomes the fallback target while an older one lives. */
  lemma FallbackSurvivesOpen<T>(e: Entries<T>, k: string, v: T)
    requires e != [] && e[0].0 != k
    ensures Put(e, k, v)[0] == e[0]
  {
  }

  /** Closing any session but the oldest leaves the fallback target unchanged. */
  lemma FallbackSurvivesOtherClose<T>(e: Entries<T>, k: string)
    requires e != [] && e[0].0 != k
    ensures Remove(e, k) != [] && Remove(e, k)[0] == e[0]
  {
  }

  /** Closing the oldest session hands the fallback to the next-oldest one. */
  lemma FallbackPassesOnClose<T>(e: Entries<T>)
    requires |e| >= 2
    ensures Remove(e, e[0].0)[0] == e[1]
  {
  }

  /** After its close, a session's id is no longer routed to it: it falls back or is refused. */
  lemma ClosedSessionNotNamed<T>(e: Entries<T>, id: string)
    requires DistinctKeys(e)
    ensures var rest := Remove(e, id);
      SelectRoute(rest, Some(id)) == if rest == [] then NoActive else Delivered(rest[0].1)
  {
    RemoveLookup(e, id, id);
  }
}
