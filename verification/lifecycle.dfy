/** Properties of single steps of a valid hook: what a hit reports, that a
    repeated call never dispatches again, that settlement is one-way, and
    that eviction removes exactly one settled entry and is idempotent. */
module Lifecycle {
  import opened Wrappers
  import opened Seqs
  import opened Requests
  import opened FetchOptions
  import opened Decoding
  import opened Store
  import opened UseFetch
  import opened Invariant

  /** For an entry that is never both resolved and errored, what a hit
      reports is exactly its state: the value iff resolved, the error iff
      errored, the entry's own handle iff pending. */
  lemma ReportReflectsState(e: Entry)
    requires !(e.response.Some? && e.error.Some?)
    ensures forall v :: Report(e) == Value(v) <==> e.response == Some(v)
    ensures forall x :: Report(e) == Failed(x) <==> e.error == Some(x)
    ensures forall p :: Report(e) == Pending(p) <==> !e.Settled() && p == e.fetch
  {
  }

  /** Calling again with the same request right after a call changes nothing,
      dispatches nothing, and reports what the first call reported. */
  lemma CallTwice(h: Hook, q: Request, o: Options, o': Options)
    ensures var first := Call(h, q, o);
      var second := Call(first.hook, q, o');
      && second.hook == first.hook
      && second.dispatched == []
      && second.outcome == first.outcome
  {
    var first := Call(h, q, o);
    if FirstMatch(h.caches, q).None? {
      var cs := first.hook.caches;
      assert cs == h.caches + [cs[|h.caches|]];
      FirstIndexAppend(h.caches, cs[|h.caches|], (e: Entry) => e.request == q);
    }
  }

  /** Settlement is one-way: an entry that is already resolved or errored is
      left exactly as it is by any settlement. */
  lemma SettleIsOneWay(h: Hook, id: Handle, c: Completion, j: nat)
    requires Valid(h) && j < |h.caches| && h.caches[j].Settled()
    ensures Settle(h, id, c).caches[j] == h.caches[j]
  {
    if FindFlight(h.flights, id).Some? {
      var i := FlightHasEntry(h, FindFlight(h.flights, id).value);
    }
  }

  /** A second settlement of the same request is ignored: once settled, an
      entry never changes again. */
  lemma SettleOnce(h: Hook, id: Handle, c: Completion, c': Completion)
    requires Valid(h)
    ensures Settle(Settle(h, id, c), id, c') == Settle(h, id, c)
  {
    SettleKeepsValid(h, id, c);
    var r := Settle(h, id, c);
    if FindFlight(h.flights, id).Some? {
      var k := FindFlight(h.flights, id).value;
      FlightIdsRemove(h.flights, k);
      assert id !in FlightIds(r.flights);
      assert FindFlight(r.flights, id).None?;
    }
  }

  /** Settlement consumes only the chain of the settled request: every other
      waiting chain stays, with the options of the call that dispatched it. */
  lemma SettleKeepsOtherChains(h: Hook, id: Handle, c: Completion, other: Handle)
    requires Valid(h) && other != id
    ensures var r := Settle(h, id, c);
      && (FindFlight(r.flights, other).Some? <==> FindFlight(h.flights, other).Some?)
      && (FindFlight(h.flights, other).Some? ==>
            r.flights[FindFlight(r.flights, other).value] == h.flights[FindFlight(h.flights, other).value])
  {
    var r := Settle(h, id, c);
    if FindFlight(h.flights, id).Some? && FindFlight(h.flights, other).Some? {
      var k := FindFlight(h.flights, id).value;
      var j := FindFlight(h.flights, other).value;
      var j' := if j < k then j else j - 1;
      assert r.flights[j'] == h.flights[j];
      var m := FindFlight(r.flights, other).value;
      var n := if m < k then m else m + 1;
      assert r.flights[m] == h.flights[n];
    }
  }

  /** Settling a pending entry arms a timer only when the lifespan of the call
      that dispatched it is positive, and the timer names that entry. */
  lemma SettleSchedulesEviction(h: Hook, id: Handle, c: Completion)
    requires Valid(h) && id in FlightIds(h.flights)
    ensures var o := h.flights[FindFlight(h.flights, id).value].options;
      && (Lifespan(o) > 0 <==> |Settle(h, id, c).timers| == |h.timers| + 1)
      && (Lifespan(o) > 0 ==> Settle(h, id, c).timers[|h.timers|] == Timer(id, Lifespan(o)))
  {
    var j :| 0 <= j < |h.flights| && h.flights[j].fetch == id;
    assert FindFlight(h.flights, id).Some?;
  }

  /** A request answered with a JSON-typed response that has a body settles
      errored, and every later call with that request is thrown the
      body-already-read failure until the entry is evicted. */
  lemma JsonResponseSettlesErrored(h: Hook, id: Handle, resp: HttpResponse, o: Options)
    requires Valid(h) && id in FlightIds(h.flights)
    requires DeclaresJson(resp) && resp.body.Stream?
    ensures var after := Settle(h, id, Fulfilled(resp));
      && FindById(h.caches, id).Some?
      && after.caches[FindById(h.caches, id).value].error == Some(BodyAlreadyRead)
      && Call(after, h.caches[FindById(h.caches, id).value].request, o).outcome == Failed(BodyAlreadyRead)
  {
    var i := FlightHasEntry(h, FindFlight(h.flights, id).value);
    var after := Settle(h, id, Fulfilled(resp));
    SettleKeepsValid(h, id, Fulfilled(resp));
    FirstIndexOfOnly(after.caches, (e: Entry) => e.request == h.caches[i].request, i);
  }

  /** A call never arms a timer and a pending entry has none: eviction is
      scheduled only after settlement. */
  lemma NoTimerWhilePending(h: Hook, i: nat)
    requires Valid(h) && i < |h.caches| && !h.caches[i].Settled()
    ensures FindTimer(h.timers, h.caches[i].fetch).None?
  {
    assert h.caches[i].fetch in PendingIds(h.caches);
  }

  /** Firing an eviction timer removes exactly the settled entry it names,
      keeps every other entry in order, and never removes a pending entry. */
  lemma ExpireRemovesOnlyItsEntry(h: Hook, id: Handle)
    requires Valid(h) && FindTimer(h.timers, id).Some?
    ensures Expire(h, id).caches == Without(h.caches, id)
    ensures forall j :: 0 <= j < |h.caches| && !h.caches[j].Settled() ==> h.caches[j] in Expire(h, id).caches
  {
    RemoveByIdIsWithout(h.caches, id);
    forall j | 0 <= j < |h.caches| && !h.caches[j].Settled() ensures h.caches[j] in Expire(h, id).caches {
      assert h.caches[j].fetch in PendingIds(h.caches);
      assert h.caches[j].fetch != id;
      WithoutKeeps(h.caches, id, j);
    }
  }

  /** The reference filter keeps every entry with another identity. */
  lemma {:induction false} WithoutKeeps(caches: seq<Entry>, id: Handle, j: nat)
    requires j < |caches| && caches[j].fetch != id
    ensures caches[j] in Without(caches, id)
  {
    if j > 0 {
      WithoutKeeps(caches[1..], id, j - 1);
    }
  }

  /** Eviction is idempotent: the timer is disarmed when it fires, so firing
      it again changes nothing. */
  lemma ExpireIdempotent(h: Hook, id: Handle)
    requires Valid(h)
    ensures Expire(Expire(h, id), id) == Expire(h, id)
  {
    if FindTimer(h.timers, id).Some? {
      var k := FindTimer(h.timers, id).value;
      var r := Expire(h, id);
      assert r.timers == RemoveAt(h.timers, k);
      forall j | 0 <= j < |r.timers| ensures r.timers[j].fetch != id {
        if j < k {
          assert r.timers[j] == h.timers[j];
        } else {
          assert r.timers[j] == h.timers[j + 1];
        }
      }
    }
  }

  /** After the timer for a settled entry fires, the next call with that
      entry's request misses and dispatches it exactly once. */
  lemma ExpireThenCallMisses(h: Hook, i: nat, o: Options)
    requires Valid(h) && i < |h.caches| && FindTimer(h.timers, h.caches[i].fetch).Some?
    ensures var after := Expire(h, h.caches[i].fetch);
      && Call(after, h.caches[i].request, o).dispatched == [h.caches[i].request]
      && Call(after, h.caches[i].request, o).outcome.Pending?
  {
    RemovedRequestMisses(h.caches, i);
  }
}
