/** Every step of the hook preserves `Valid`: the cache list never holds two
    entries for one request, settlement is one-way, and eviction only ever
    removes settled entries. */
module Invariant {
  import opened Wrappers
  import opened Seqs
  import opened Requests
  import opened FetchOptions
  import opened Store
  import opened UseFetch

  /** Appending an entry adds its handle to the pending ones exactly when it is pending. */
  lemma PendingIdsAppend(caches: seq<Entry>, e: Entry)
    ensures PendingIds(caches + [e]) == PendingIds(caches) + (if e.Settled() then {} else {e.fetch})
  {
    var cs := caches + [e];
    assert forall j :: 0 <= j < |caches| ==> cs[j] == caches[j];
    assert cs[|caches|] == e;
  }

  /** Appending a chain adds its handle. */
  lemma FlightIdsAppend(flights: seq<Flight>, f: Flight)
    ensures FlightIds(flights + [f]) == FlightIds(flights) + {f.fetch}
  {
    var fs := flights + [f];
    assert forall j :: 0 <= j < |flights| ==> fs[j] == flights[j];
    assert fs[|flights|] == f;
  }

  /** Settling the only entry with handle `id` takes `id` out of the pending ones. */
  lemma PendingIdsSettle(caches: seq<Entry>, i: nat, e: Entry)
    requires UniqueIds(caches) && i < |caches|
    requires e.fetch == caches[i].fetch && e.Settled()
    ensures PendingIds(caches[i := e]) == PendingIds(caches) - {caches[i].fetch}
  {
    var cs := caches[i := e];
    forall x | x in PendingIds(caches) - {caches[i].fetch} ensures x in PendingIds(cs) {
      var j :| 0 <= j < |caches| && !caches[j].Settled() && caches[j].fetch == x;
      assert cs[j] == caches[j];
    }
  }

  /** Removing a settled entry leaves the pending handles as they were. */
  lemma PendingIdsRemoveSettled(caches: seq<Entry>, i: nat)
    requires i < |caches| && caches[i].Settled()
    ensures PendingIds(RemoveAt(caches, i)) == PendingIds(caches)
  {
    var cs := RemoveAt(caches, i);
    forall x | x in PendingIds(caches) ensures x in PendingIds(cs) {
      var j :| 0 <= j < |caches| && !caches[j].Settled() && caches[j].fetch == x;
      if j < i {
        assert cs[j] == caches[j];
      } else {
        assert cs[j - 1] == caches[j];
      }
    }
    forall x | x in PendingIds(cs) ensures x in PendingIds(caches) {
      var j :| 0 <= j < |cs| && !cs[j].Settled() && cs[j].fetch == x;
      if j < i {
        assert cs[j] == caches[j];
      } else {
        assert cs[j] == caches[j + 1];
      }
    }
  }

  /** Removing the only chain with handle `id` takes `id` out of the chain handles. */
  lemma FlightIdsRemove(flights: seq<Flight>, k: nat)
    requires k < |flights|
    requires forall i, j :: 0 <= i < j < |flights| ==> flights[i].fetch != flights[j].fetch
    ensures FlightIds(RemoveAt(flights, k)) == FlightIds(flights) - {flights[k].fetch}
  {
    var fs := RemoveAt(flights, k);
    forall x | x in FlightIds(flights) - {flights[k].fetch} ensures x in FlightIds(fs) {
      var j :| 0 <= j < |flights| && flights[j].fetch == x;
      if j < k {
        assert fs[j] == flights[j];
      } else {
        assert fs[j - 1] == flights[j];
      }
    }
  }

  /** Taking one entry out keeps identities and requests unique. */
  lemma RemoveAtKeepsUnique(caches: seq<Entry>, i: nat)
    requires i < |caches| && UniqueIds(caches) && UniqueRequests(caches)
    ensures UniqueIds(RemoveAt(caches, i)) && UniqueRequests(RemoveAt(caches, i))
  {
    var cs := RemoveAt(caches, i);
    forall a, b | 0 <= a < b < |cs|
      ensures cs[a].fetch != cs[b].fetch && cs[a].request != cs[b].request
    {
      var a' := if a < i then a else a + 1;
      var b' := if b < i then b else b + 1;
      assert cs[a] == caches[a'] && cs[b] == caches[b'];
    }
  }

  /** The chain for `id` points at a pending entry with that identity. */
  lemma FlightHasEntry(h: Hook, k: nat) returns (i: nat)
    requires Valid(h) && k < |h.flights|
    ensures FindById(h.caches, h.flights[k].fetch) == Some(i)
    ensures !h.caches[i].Settled()
  {
    var id := h.flights[k].fetch;
    assert id in FlightIds(h.flights);
    var j :| 0 <= j < |h.caches| && !h.caches[j].Settled() && h.caches[j].fetch == id;
    FirstIndexOfOnly(h.caches, (e: Entry) => e.fetch == id, j);
    i := j;
  }

  /** A call keeps the hook valid. */
  lemma CallKeepsValid(h: Hook, q: Request, o: Options)
    requires Valid(h)
    ensures Valid(Call(h, q, o).hook)
  {
    if FirstMatch(h.caches, q).None? {
      var r := Call(h, q, o).hook;
      var e := Entry(h.nextHandle, q, None, None);
      assert r.caches == h.caches + [e];
      assert r.flights == h.flights + [Flight(h.nextHandle, o)];
      PendingIdsAppend(h.caches, e);
      FlightIdsAppend(h.flights, Flight(h.nextHandle, o));
      forall k | 0 <= k < |h.flights| ensures h.flights[k].fetch < h.nextHandle {
        var i := FlightHasEntry(h, k);
      }
    }
  }

  /** Settlement keeps the hook valid. */
  lemma SettleKeepsValid(h: Hook, id: Handle, c: Completion)
    requires Valid(h)
    ensures Valid(Settle(h, id, c))
  {
    match FindFlight(h.flights, id)
    case None =>
    case Some(k) =>
      var r := Settle(h, id, c);
      var i := FlightHasEntry(h, k);
      assert r.caches == h.caches[i := SettleEntry(h.caches[i], c, h.flights[k].options)];
      assert r.flights == RemoveAt(h.flights, k);
      PendingIdsSettle(h.caches, i, r.caches[i]);
      FlightIdsRemove(h.flights, k);
      assert UniqueIds(r.caches) && UniqueRequests(r.caches);
  }

  /** Firing an eviction timer keeps the hook valid: the entry it removes is settled. */
  lemma ExpireKeepsValid(h: Hook, id: Handle)
    requires Valid(h)
    ensures Valid(Expire(h, id))
  {
    match FindTimer(h.timers, id)
    case None =>
    case Some(k) =>
      var r := Expire(h, id);
      assert id !in PendingIds(h.caches);
      match FindById(h.caches, id)
      case None =>
      case Some(i) =>
        assert r.caches == RemoveAt(h.caches, i);
        assert h.caches[i].Settled();
        PendingIdsRemoveSettled(h.caches, i);
        RemoveAtKeepsUnique(h.caches, i);
  }
}
