/** The hook returned by `createUseFetch` (fetch-suspense.ts lines 29-123), as
    a state machine. A call looks the request up and either reports the entry
    it found or reserves a new pending entry and dispatches the request. The
    asynchronous continuations become explicit steps: `Settle` runs the
    promise chain of one dispatched request once the network answers, and
    `Expire` runs one eviction timer that settlement armed. */
module UseFetch {
  import opened Wrappers
  import opened Seqs
  import opened Requests
  import opened FetchOptions
  import opened Decoding
  import opened Store

  /** The promise chain of one dispatched request, not yet settled. It
      remembers the options of the call that dispatched it, which the chain
      reads when it decodes and when it computes the lifespan. */
  datatype Flight = Flight(fetch: Handle, options: Options)

  /** A `setTimeout` armed at settlement to evict one entry after `delay` milliseconds. */
  datatype Timer = Timer(fetch: Handle, delay: int)

  /** Everything one hook owns: its cache list, the chains still waiting on
      the network, the armed eviction timers, and the handle the dispatcher
      will hand out next (dispatching is an abstract handle generator). */
  datatype Hook = Hook(caches: seq<Entry>, flights: seq<Flight>, timers: seq<Timer>, nextHandle: Handle)

  /** The three signals of a call: return the value, throw the in-flight
      handle (suspend), or throw the captured error. */
  datatype Outcome = Value(value: Cached) | Pending(handle: Handle) | Failed(error: Failure)

  /** How the network operation of a dispatched request ended. */
  datatype Completion = Rejected(error: Failure) | Fulfilled(response: HttpResponse)

  /** A call's signal, the hook after it, and the requests it handed to the dispatcher. */
  datatype CallResult = CallResult(outcome: Outcome, hook: Hook, dispatched: seq<Request>)

  /** The chain waiting on the request with this handle, if any. */
  function FindFlight(flights: seq<Flight>, id: Handle): (r: Option<nat>)
    ensures r.Some? ==> r.value < |flights| && flights[r.value].fetch == id
    ensures r.None? <==> forall j :: 0 <= j < |flights| ==> flights[j].fetch != id
  {
    FirstIndex(flights, (f: Flight) => f.fetch == id)
  }

  /** The armed timer that evicts the entry with this handle, if any. */
  function FindTimer(timers: seq<Timer>, id: Handle): (r: Option<nat>)
    ensures r.Some? ==> r.value < |timers| && timers[r.value].fetch == id
    ensures r.None? <==> forall j :: 0 <= j < |timers| ==> timers[j].fetch != id
  {
    FirstIndex(timers, (t: Timer) => t.fetch == id)
  }

  /** Handles of the entries still waiting for the network. */
  function PendingIds(caches: seq<Entry>): set<Handle> {
    set j | 0 <= j < |caches| && !caches[j].Settled() :: caches[j].fetch
  }

  /** Handles of the chains still waiting for the network. */
  function FlightIds(flights: seq<Flight>): set<Handle> {
    set j | 0 <= j < |flights| :: flights[j].fetch
  }

  /** The invariant every reachable hook keeps: one entry per identity and
      per request, no entry both resolved and errored, exactly the pending
      entries have a chain waiting (one each), and a timer only ever names a
      settled request (one timer each). */
  predicate Valid(h: Hook) {
    && UniqueIds(h.caches)
    && UniqueRequests(h.caches)
    && (forall i :: 0 <= i < |h.caches| ==> !(h.caches[i].response.Some? && h.caches[i].error.Some?))
    && (forall i :: 0 <= i < |h.caches| ==> h.caches[i].fetch < h.nextHandle)
    && (forall i, j :: 0 <= i < j < |h.flights| ==> h.flights[i].fetch != h.flights[j].fetch)
    && FlightIds(h.flights) == PendingIds(h.caches)
    && (forall i :: 0 <= i < |h.timers| ==> h.timers[i].fetch < h.nextHandle && h.timers[i].fetch !in FlightIds(h.flights))
    && (forall i, j :: 0 <= i < j < |h.timers| ==> h.timers[i].fetch != h.timers[j].fetch)
  }

  /** `createUseFetch(fetch)`: a hook with an empty cache list of its own. */
  function Create(): (h: Hook)
    ensures Valid(h)
    ensures h.caches == [] && h.flights == [] && h.timers == []
  {
    Hook([], [], [], 0)
  }

  /** What a hit reports: an error is thrown first, else a response is
      returned, else the in-flight handle is thrown. */
  function Report(e: Entry): (r: Outcome)
    ensures e.error.Some? ==> r == Failed(e.error.value)
    ensures e.error.None? && e.response.Some? ==> r == Value(e.response.value)
    ensures r.Pending? <==> !e.Settled()
    ensures r.Pending? ==> r.handle == e.fetch
    ensures r.Failed? ==> Some(r.error) == e.error
    ensures r.Value? ==> Some(r.value) == e.response
  {
    if e.error.Some? then Failed(e.error.value)
    else if e.response.Some? then Value(e.response.value)
    else Pending(e.fetch)
  }

  /** One invocation of the hook with `(input, init)` = `q` and the given options. */
  function Call(h: Hook, q: Request, o: Options): (r: CallResult)
    // a hit: nothing changes, nothing is dispatched, the first match reports
    ensures FirstMatch(h.caches, q).Some? ==>
      && r.hook == h
      && r.dispatched == []
      && r.outcome == Report(h.caches[FirstMatch(h.caches, q).value])
    // a miss: one dispatch of the caller's request, one new pending entry at
    // the end, prior entries untouched, and the new handle is thrown
    ensures FirstMatch(h.caches, q).None? ==>
      && r.dispatched == [q]
      && |r.hook.caches| == |h.caches| + 1
      && r.hook.caches[..|h.caches|] == h.caches
      && r.hook.caches[|h.caches|].request == q
      && !r.hook.caches[|h.caches|].Settled()
      && r.outcome == Pending(r.hook.caches[|h.caches|].fetch)
      && r.hook.flights == h.flights + [Flight(r.hook.caches[|h.caches|].fetch, o)]
      && r.hook.timers == h.timers
  {
    match FirstMatch(h.caches, q)
    case Some(i) => CallResult(Report(h.caches[i]), h, [])
    case None =>
      var id := h.nextHandle;
      var entry := Entry(id, q, None, None);
      CallResult(
        Pending(id),
        Hook(h.caches + [entry], h.flights + [Flight(id, o)], h.timers, id + 1),
        [q])
  }

  /** The settlement part of the chain (lines 66-96): a rejected fetch, or a
      body that fails to decode, sets `error` to that very failure; a decoded
      body sets `response`. */
  function SettleEntry(e: Entry, c: Completion, o: Options): (r: Entry)
    ensures r.fetch == e.fetch && r.request == e.request
    ensures r.Settled()
    ensures !e.Settled() ==> !(r.response.Some? && r.error.Some?)
    // a transport failure is stored verbatim
    ensures !e.Settled() && c.Rejected? ==> r.error == Some(c.error) && r.response.None?
    // a response settles with what the decoder made of it, read in the
    // info mode of the dispatching call's options
    ensures !e.Settled() && c.Fulfilled? ==>
      match Decode(c.response, InfoMode(o)).value
      case Ok(v) => r.response == Some(v) && r.error.None?
      case Err(x) => r.error == Some(x) && r.response.None?
    // a JSON-typed response with a body always settles errored
    ensures !e.Settled() && c.Fulfilled? && DeclaresJson(c.response) && c.response.body.Stream? ==>
      r.error == Some(BodyAlreadyRead)
  {
    match c
    case Rejected(x) => e.(error := Some(x))
    case Fulfilled(resp) =>
      InfoModeIgnoresNormalize(o);
      match Decode(resp, InfoMode(Normalize(o))).value
      case Ok(v) => e.(response := Some(v))
      case Err(x) => e.(error := Some(x))
  }

  /** The network answered the request with handle `id`: its chain settles
      the entry (found by identity), is consumed, and, after that, arms an eviction timer
      when the lifespan of the dispatching call is positive. A handle with no
      waiting chain is left alone. */
  function Settle(h: Hook, id: Handle, c: Completion): (r: Hook)
    ensures r.nextHandle == h.nextHandle
    ensures |r.caches| == |h.caches|
    ensures forall j :: 0 <= j < |h.caches| ==> r.caches[j].fetch == h.caches[j].fetch && r.caches[j].request == h.caches[j].request
    ensures forall j :: 0 <= j < |h.caches| && h.caches[j].fetch != id ==> r.caches[j] == h.caches[j]
    ensures FindFlight(h.flights, id).None? ==> r == h
    ensures FindFlight(h.flights, id).Some? ==>
      var life := Lifespan(h.flights[FindFlight(h.flights, id).value].options);
      && r.flights == RemoveAt(h.flights, FindFlight(h.flights, id).value)
      && (life > 0 ==> r.timers == h.timers + [Timer(id, life)])
      && (life <= 0 ==> r.timers == h.timers)
      && (FindById(h.caches, id).Some? ==>
            var i := FindById(h.caches, id).value;
            r.caches[i] == SettleEntry(h.caches[i], c, h.flights[FindFlight(h.flights, id).value].options))
  {
    match FindFlight(h.flights, id)
    case None => h
    case Some(k) =>
      var f := h.flights[k];
      var caches := match FindById(h.caches, id)
        case None => h.caches
        case Some(i) => h.caches[i := SettleEntry(h.caches[i], c, f.options)];
      // line 68 only runs when the fetch itself succeeded
      var seen := if c.Fulfilled? then Normalize(f.options) else f.options;
      LifespanIgnoresNormalize(f.options);
      var life := Lifespan(seen);
      Hook(caches, RemoveAt(h.flights, k),
           if life > 0 then h.timers + [Timer(id, life)] else h.timers,
           h.nextHandle)
  }

  /** The timer for handle `id` fires: it is disarmed and the entry with that
      identity, if still listed, is spliced out. With no such timer armed
      nothing happens. */
  function Expire(h: Hook, id: Handle): (r: Hook)
    ensures r.flights == h.flights && r.nextHandle == h.nextHandle
    ensures FindTimer(h.timers, id).None? ==> r == h
    ensures FindTimer(h.timers, id).Some? ==>
      && r.caches == RemoveById(h.caches, id)
      && r.timers == RemoveAt(h.timers, FindTimer(h.timers, id).value)
  {
    match FindTimer(h.timers, id)
    case None => h
    case Some(k) => h.(caches := RemoveById(h.caches, id), timers := RemoveAt(h.timers, k))
  }
}
