/** The hook driven by an explicit sequence of events: calls from the
    consumer, the network answering a dispatched request, and eviction
    timers firing. There is no clock, so timers may fire in any order. */
module Runs {
  import opened Wrappers
  import opened Requests
  import opened FetchOptions
  import opened Store
  import opened UseFetch
  import opened Invariant
  import opened Lifecycle

  /** One turn of the event queue. */
  datatype Event =
    | Call(request: Request, options: Options)
    | Settle(fetch: Handle, completion: Completion)
    | Expire(fetch: Handle)

  /** The hook after one event, what it dispatched, and what a call signalled. */
  datatype StepResult = StepResult(hook: Hook, dispatched: seq<Request>, outcome: Option<Outcome>)

  /** The hook after a run, every request dispatched, and every call's signal, in order. */
  datatype Trace = Trace(hook: Hook, dispatched: seq<Request>, outcomes: seq<Outcome>)

  function Step(h: Hook, ev: Event): (s: StepResult)
    ensures ev.Call? <==> s.outcome.Some?
    ensures !ev.Call? ==> s.dispatched == []
    ensures |s.dispatched| <= 1
  {
    match ev
    case Call(q, o) =>
      var r := UseFetch.Call(h, q, o);
      StepResult(r.hook, r.dispatched, Some(r.outcome))
    case Settle(id, c) => StepResult(UseFetch.Settle(h, id, c), [], None)
    case Expire(id) => StepResult(UseFetch.Expire(h, id), [], None)
  }

  function Run(h: Hook, evs: seq<Event>): (t: Trace)
    ensures |t.dispatched| <= |t.outcomes| <= |evs|
    decreases |evs|
  {
    if |evs| == 0 then Trace(h, [], [])
    else
      var s := Step(h, evs[0]);
      var t := Run(s.hook, evs[1..]);
      Trace(t.hook, s.dispatched + t.dispatched, (if s.outcome.Some? then [s.outcome.value] else []) + t.outcomes)
  }

  /** `q` has an entry in the hook's cache list. */
  predicate Listed(h: Hook, q: Request) {
    FirstMatch(h.caches, q).Some?
  }

  /** Every event keeps the hook valid. */
  lemma StepKeepsValid(h: Hook, ev: Event)
    requires Valid(h)
    ensures Valid(Step(h, ev).hook)
  {
    match ev
    case Call(q, o) => CallKeepsValid(h, q, o);
    case Settle(id, c) => SettleKeepsValid(h, id, c);
    case Expire(id) => ExpireKeepsValid(h, id);
  }

  /** Every run from a valid hook ends in a valid hook. */
  lemma {:induction false} RunKeepsValid(h: Hook, evs: seq<Event>)
    requires Valid(h)
    ensures Valid(Run(h, evs).hook)
    decreases |evs|
  {
    if |evs| > 0 {
      StepKeepsValid(h, evs[0]);
      RunKeepsValid(Step(h, evs[0]).hook, evs[1..]);
    }
  }

  /** One event dispatches a request at most once and leaves it listed; a
      listed request stays listed and is not dispatched, unless the event
      fires an armed timer. */
  lemma StepDispatch(h: Hook, ev: Event, q: Request)
    ensures multiset(Step(h, ev).dispatched)[q] <= 1
    ensures multiset(Step(h, ev).dispatched)[q] == 1 ==> Listed(Step(h, ev).hook, q)
    ensures Listed(h, q) && !(ev.Expire? && FindTimer(h.timers, ev.fetch).Some?) ==>
      Listed(Step(h, ev).hook, q) && multiset(Step(h, ev).dispatched)[q] == 0
  {
    match ev
    case Call(q', o) =>
      if FirstMatch(h.caches, q').None? {
        var r := UseFetch.Call(h, q', o).hook;
        assert r.caches[|h.caches|].request == q';
        if q == q' {
          assert FirstMatch(r.caches, q).Some?;
        }
        if Listed(h, q) {
          var k := FirstMatch(h.caches, q).value;
          assert r.caches[k] == h.caches[k];
          assert FirstMatch(r.caches, q).Some?;
        }
      }
    case Settle(id, c) =>
      FirstMatchSeesOnlyRequests(h.caches, UseFetch.Settle(h, id, c).caches, q);
    case Expire(id) =>
  }

  /** Dedup: with no eviction in between, a request is dispatched at most
      once however often it is called, and never if it is already listed. */
  lemma {:induction false} DispatchedAtMostOnce(h: Hook, evs: seq<Event>, q: Request)
    requires forall i :: 0 <= i < |evs| ==> !evs[i].Expire?
    ensures multiset(Run(h, evs).dispatched)[q] <= 1
    ensures Listed(h, q) ==> multiset(Run(h, evs).dispatched)[q] == 0
    decreases |evs|
  {
    if |evs| > 0 {
      var s := Step(h, evs[0]);
      StepDispatch(h, evs[0], q);
      DispatchedAtMostOnce(s.hook, evs[1..], q);
      assert multiset(Run(h, evs).dispatched) == multiset(s.dispatched) + multiset(Run(s.hook, evs[1..]).dispatched);
    }
  }

  /** No pending timers and no waiting chain that would arm one. */
  predicate Quiet(h: Hook) {
    h.timers == [] && forall i :: 0 <= i < |h.flights| ==> Lifespan(h.flights[i].options) <= 0
  }

  /** Every call in the run leaves the lifespan unset, zero or negative. */
  predicate NoLifespan(evs: seq<Event>) {
    forall i :: 0 <= i < |evs| && evs[i].Call? ==> Lifespan(evs[i].options) <= 0
  }

  /** Without a positive lifespan no timer is ever armed. */
  lemma StepKeepsQuiet(h: Hook, ev: Event)
    requires Valid(h) && Quiet(h)
    requires ev.Call? ==> Lifespan(ev.options) <= 0
    ensures Quiet(Step(h, ev).hook)
  {
    match ev
    case Call(q, o) =>
    case Settle(id, c) =>
      if FindFlight(h.flights, id).Some? {
        var k := FindFlight(h.flights, id).value;
        var r := UseFetch.Settle(h, id, c);
        assert r.flights == Seqs.RemoveAt(h.flights, k);
      }
    case Expire(id) =>
  }

  /** No eviction by default: when no call asks for a positive lifespan, a
      listed request stays listed and is never dispatched again, whatever
      happens later, and any request is dispatched at most once. */
  lemma {:induction false} NoEvictionByDefault(h: Hook, evs: seq<Event>, q: Request)
    requires Valid(h) && Quiet(h) && NoLifespan(evs)
    ensures Listed(h, q) ==> Listed(Run(h, evs).hook, q) && multiset(Run(h, evs).dispatched)[q] == 0
    ensures multiset(Run(h, evs).dispatched)[q] <= 1
    decreases |evs|
  {
    if |evs| > 0 {
      var s := Step(h, evs[0]);
      StepDispatch(h, evs[0], q);
      StepKeepsValid(h, evs[0]);
      StepKeepsQuiet(h, evs[0]);
      assert NoLifespan(evs[1..]) by {
        forall i | 0 <= i < |evs[1..]| && evs[1..][i].Call? ensures Lifespan(evs[1..][i].options) <= 0 {
          assert evs[1..][i] == evs[i + 1];
        }
      }
      NoEvictionByDefault(s.hook, evs[1..], q);
      assert multiset(Run(h, evs).dispatched) == multiset(s.dispatched) + multiset(Run(s.hook, evs[1..]).dispatched);
    }
  }

  /** Once an entry is settled, every entry carrying its handle is that very
      entry, and handles still to be issued never reuse it. */
  predicate Frozen(h: Hook, e: Entry) {
    e.fetch < h.nextHandle && forall j :: 0 <= j < |h.caches| && h.caches[j].fetch == e.fetch ==> h.caches[j] == e
  }

  lemma StepKeepsFrozen(h: Hook, ev: Event, e: Entry)
    requires Valid(h) && e.Settled() && Frozen(h, e)
    ensures Frozen(Step(h, ev).hook, e)
  {
    var r := Step(h, ev).hook;
    match ev
    case Call(q, o) =>
      if FirstMatch(h.caches, q).None? {
        assert forall j :: 0 <= j < |h.caches| ==> r.caches[j] == h.caches[j];
      }
    case Settle(id, c) =>
      forall j | 0 <= j < |h.caches| && h.caches[j].fetch == e.fetch ensures r.caches[j] == e {
        SettleIsOneWay(h, id, c, j);
      }
    case Expire(id) =>
      if FindTimer(h.timers, id).Some? && FindById(h.caches, id).Some? {
        var i := FindById(h.caches, id).value;
        assert r.caches == Seqs.RemoveAt(h.caches, i);
        forall j | 0 <= j < |r.caches| && r.caches[j].fetch == e.fetch ensures r.caches[j] == e {
          if j < i { assert r.caches[j] == h.caches[j]; } else { assert r.caches[j] == h.caches[j + 1]; }
        }
      }
  }

  /** State monotonicity: an entry observed resolved or errored is never seen
      pending again or with the other outcome; afterwards it is either still
      listed unchanged or gone. */
  lemma {:induction false} SettledStaysSettled(h: Hook, evs: seq<Event>, i: nat)
    requires Valid(h) && i < |h.caches| && h.caches[i].Settled()
    ensures forall j :: 0 <= j < |Run(h, evs).hook.caches| && Run(h, evs).hook.caches[j].fetch == h.caches[i].fetch ==>
      Run(h, evs).hook.caches[j] == h.caches[i]
  {
    RunKeepsFrozen(h, evs, h.caches[i]);
  }

  lemma {:induction false} RunKeepsFrozen(h: Hook, evs: seq<Event>, e: Entry)
    requires Valid(h) && e.Settled() && Frozen(h, e)
    ensures Frozen(Run(h, evs).hook, e)
    decreases |evs|
  {
    if |evs| > 0 {
      StepKeepsValid(h, evs[0]);
      StepKeepsFrozen(h, evs[0], e);
      RunKeepsFrozen(Step(h, evs[0]).hook, evs[1..], e);
    }
  }
}
