/** Concrete runs of a fresh hook: suspension then value, eviction after a
    lifespan, and the error paths. */
module Scenarios {
  import opened Wrappers
  import opened Requests
  import opened FetchOptions
  import opened Text
  import opened Decoding
  import opened Store
  import opened UseFetch
  import opened Runs

  const A: Request := Request(Str("/a"), None)

  /** A plain-text response whose body reads as `x`. */
  const PlainX: HttpResponse := HttpResponse(200, Some("text/plain"), Stream(Ok("x")))

  /** The body text of `PlainX`, cached as is. */
  const X: Cached := Plain("x")

  /** A JSON-typed response with a body. */
  const JsonA: HttpResponse := HttpResponse(200, Some("application/json"), Stream(Ok("{\"a\":1}")))

  /** A run is its first step followed by the rest. */
  lemma RunCons(h: Hook, ev: Event, evs: seq<Event>)
    ensures var s := Step(h, ev);
      var t := Run(s.hook, evs);
      Run(h, [ev] + evs) == Trace(t.hook, s.dispatched + t.dispatched, (if s.outcome.Some? then [s.outcome.value] else []) + t.outcomes)
  {
    assert ([ev] + evs)[0] == ev && ([ev] + evs)[1..] == evs;
  }

  /** The first call with `A` on a fresh hook. */
  lemma FirstCall(o: Options)
    ensures Step(Create(), Call(A, o)) == StepResult(Hook([Entry(0, A, None, None)], [Flight(0, o)], [], 1), [A], Some(Pending(0)))
  {
    assert FirstMatch([], A).None?;
  }

  /** A call with `A` when `A` is the only entry. */
  lemma CallListed(h: Hook, o: Options)
    requires |h.caches| == 1 && h.caches[0].request == A
    ensures Step(h, Call(A, o)) == StepResult(h, [], Some(Report(h.caches[0])))
  {
    assert FirstMatch(h.caches, A) == Some(0);
  }

  /** The network answers the one pending request of a fresh hook. */
  lemma SettleFirst(o: Options, c: Completion, e: Entry)
    requires e == SettleEntry(Entry(0, A, None, None), c, o)
    ensures var life := Lifespan(if c.Fulfilled? then Normalize(o) else o);
      Step(Hook([Entry(0, A, None, None)], [Flight(0, o)], [], 1), Settle(0, c))
        == StepResult(Hook([e], [], if life > 0 then [Timer(0, life)] else [], 1), [], None)
  {
    var h := Hook([Entry(0, A, None, None)], [Flight(0, o)], [], 1);
    assert FindFlight(h.flights, 0) == Some(0);
    assert FindById(h.caches, 0) == Some(0);
    assert Seqs.RemoveAt(h.flights, 0) == [];
  }

  /** Calling `("/a")` while the network is unresolved suspends, twice, with
      one dispatch; once it answers with plain text, the call returns that text. */
  lemma SuspendThenValue()
    ensures var t := Run(Create(), [Call(A, Absent), Call(A, Absent), Settle(0, Fulfilled(PlainX)), Call(A, Absent)]);
      && t.dispatched == [A]
      && t.outcomes == [Pending(0), Pending(0), Value(X)]
  {
    var h1 := Hook([Entry(0, A, None, None)], [Flight(0, Absent)], [], 1);
    var e := Entry(0, A, Some(X), None);
    var h2 := Hook([e], [], [], 1);
    FirstCall(Absent);
    CallListed(h1, Absent);
    SettlePlain(Absent);
    SettleFirst(Absent, Fulfilled(PlainX), e);
    CallListed(h2, Absent);
    RunCons(h2, Call(A, Absent), []);
    RunCons(h1, Settle(0, Fulfilled(PlainX)), [Call(A, Absent)]);
    RunCons(h1, Call(A, Absent), [Settle(0, Fulfilled(PlainX)), Call(A, Absent)]);
    RunCons(Create(), Call(A, Absent), [Call(A, Absent), Settle(0, Fulfilled(PlainX)), Call(A, Absent)]);
  }

  /** Settling with `PlainX` caches its text, paired with the response in info mode. */
  lemma SettlePlain(o: Options)
    ensures SettleEntry(Entry(0, A, None, None), Fulfilled(PlainX), o)
      == Entry(0, A, Some(if InfoMode(o) then WithInfo("x", PlainX) else X), None)
  {
    InfoModeIgnoresNormalize(o);
    assert IndexOf("text/plain", JsonMediaType) == -1;
    assert TextRead(PlainX) == Ok("x");
  }

  /** With a lifespan of 1000 ms the timer armed at settlement evicts the
      entry, and the next call dispatches exactly once more. */
  lemma LifespanEvicts()
    ensures var t := Run(Create(), [Call(A, Millis(1000)), Settle(0, Fulfilled(PlainX)), Expire(0), Call(A, Absent)]);
      && t.dispatched == [A, A]
      && t.outcomes == [Pending(0), Pending(1)]
  {
    var h1 := Hook([Entry(0, A, None, None)], [Flight(0, Millis(1000))], [], 1);
    var e := Entry(0, A, Some(X), None);
    var h2 := Hook([e], [], [Timer(0, 1000)], 1);
    FirstCall(Millis(1000));
    SettlePlain(Millis(1000));
    SettleFirst(Millis(1000), Fulfilled(PlainX), e);
    ExpireThenCall(h2);
    RunCons(h1, Settle(0, Fulfilled(PlainX)), [Expire(0), Call(A, Absent)]);
    RunCons(Create(), Call(A, Millis(1000)), [Settle(0, Fulfilled(PlainX)), Expire(0), Call(A, Absent)]);
  }

  /** The timer of the only, settled entry fires and `A` is called again. */
  lemma ExpireThenCall(h2: Hook)
    requires h2 == Hook([Entry(0, A, Some(X), None)], [], [Timer(0, 1000)], 1)
    ensures Run(h2, [Expire(0), Call(A, Absent)]) == Trace(Hook([Entry(1, A, None, None)], [Flight(1, Absent)], [], 2), [A], [Pending(1)])
  {
    var h3 := Hook([], [], [], 1);
    assert FindTimer(h2.timers, 0) == Some(0);
    assert FindById(h2.caches, 0) == Some(0);
    assert RemoveById(h2.caches, 0) == [];
    assert Step(h2, Expire(0)) == StepResult(h3, [], None);
    assert FirstMatch(h3.caches, A).None?;
    RunCons(h3, Call(A, Absent), []);
    RunCons(h2, Expire(0), [Call(A, Absent)]);
  }

  /** Without a lifespan no timer is armed, so the same events keep the entry. */
  lemma NoLifespanKeeps()
    ensures var t := Run(Create(), [Call(A, Absent), Settle(0, Fulfilled(PlainX)), Expire(0), Call(A, Absent)]);
      && t.dispatched == [A]
      && t.outcomes == [Pending(0), Value(X)]
  {
    var h1 := Hook([Entry(0, A, None, None)], [Flight(0, Absent)], [], 1);
    var e := Entry(0, A, Some(X), None);
    var h2 := Hook([e], [], [], 1);
    FirstCall(Absent);
    SettlePlain(Absent);
    SettleFirst(Absent, Fulfilled(PlainX), e);
    UnarmedExpireThenCall(h2);
    RunCons(h1, Settle(0, Fulfilled(PlainX)), [Expire(0), Call(A, Absent)]);
    RunCons(Create(), Call(A, Absent), [Settle(0, Fulfilled(PlainX)), Expire(0), Call(A, Absent)]);
  }

  /** With no timer armed, firing changes nothing and the entry answers the call. */
  lemma UnarmedExpireThenCall(h2: Hook)
    requires h2 == Hook([Entry(0, A, Some(X), None)], [], [], 1)
    ensures Run(h2, [Expire(0), Call(A, Absent)]) == Trace(h2, [], [Value(X)])
  {
    assert FindTimer(h2.timers, 0).None?;
    assert Step(h2, Expire(0)) == StepResult(h2, [], None);
    CallListed(h2, Absent);
    RunCons(h2, Call(A, Absent), []);
    RunCons(h2, Expire(0), [Call(A, Absent)]);
  }

  /** A hook holding only an entry for `A` answers a call with that entry's report. */
  lemma ListedAnswers(e: Entry)
    requires e.request == A
    ensures Run(Hook([e], [], [], 1), [Call(A, Absent)]) == Trace(Hook([e], [], [], 1), [], [Report(e)])
  {
    CallListed(Hook([e], [], [], 1), Absent);
    RunCons(Hook([e], [], [], 1), Call(A, Absent), []);
  }

  /** A failed fetch is reported to the next caller as the same error. */
  lemma FailureIsReported()
    ensures var t := Run(Create(), [Call(A, Absent), Settle(0, Rejected(Thrown("offline"))), Call(A, Absent)]);
      t.outcomes == [Pending(0), Failed(Thrown("offline"))]
  {
    var c := Rejected(Thrown("offline"));
    var h1 := Hook([Entry(0, A, None, None)], [Flight(0, Absent)], [], 1);
    var e := Entry(0, A, None, Some(Thrown("offline")));
    var h2 := Hook([e], [], [], 1);
    FirstCall(Absent);
    SettleFirst(Absent, c, e);
    ListedAnswers(e);
    RunCons(h1, Settle(0, c), [Call(A, Absent)]);
    RunCons(Create(), Call(A, Absent), [Settle(0, c), Call(A, Absent)]);
  }

  /** In info mode the cached value pairs the body text with the response. */
  lemma InfoModeWraps()
    ensures var t := Run(Create(), [Call(A, Config(None, Some(true))), Settle(0, Fulfilled(PlainX)), Call(A, Absent)]);
      t.outcomes == [Pending(0), Value(WithInfo("x", PlainX))]
  {
    var o := Config(None, Some(true));
    var h1 := Hook([Entry(0, A, None, None)], [Flight(0, o)], [], 1);
    var e := Entry(0, A, Some(WithInfo("x", PlainX)), None);
    var h2 := Hook([e], [], [], 1);
    FirstCall(o);
    SettlePlain(o);
    SettleFirst(o, Fulfilled(PlainX), e);
    CallListed(h2, Absent);
    RunCons(h2, Call(A, Absent), []);
    RunCons(h1, Settle(0, Fulfilled(PlainX)), [Call(A, Absent)]);
    RunCons(Create(), Call(A, o), [Settle(0, Fulfilled(PlainX)), Call(A, Absent)]);
  }

  /** Settling with `JsonA` stores the body-already-read failure. */
  lemma SettleJson(o: Options)
    ensures SettleEntry(Entry(0, A, None, None), Fulfilled(JsonA), o) == Entry(0, A, None, Some(BodyAlreadyRead))
  {
    assert OccursAt("application/json", JsonMediaType, 0);
    assert DeclaresJson(JsonA);
  }

  /** A JSON-typed answer with a body settles the entry errored: the text read
      finds the body already taken by the discarded JSON read, and the next
      caller is thrown that failure. */
  lemma JsonBodyFails()
    ensures var t := Run(Create(), [Call(A, Absent), Settle(0, Fulfilled(JsonA)), Call(A, Absent)]);
      && t.dispatched == [A]
      && t.outcomes == [Pending(0), Failed(BodyAlreadyRead)]
  {
    var c := Fulfilled(JsonA);
    var h1 := Hook([Entry(0, A, None, None)], [Flight(0, Absent)], [], 1);
    var e := Entry(0, A, None, Some(BodyAlreadyRead));
    var h2 := Hook([e], [], [], 1);
    SettleJson(Absent);
    FirstCall(Absent);
    SettleFirst(Absent, c, e);
    ListedAnswers(e);
    RunCons(h1, Settle(0, c), [Call(A, Absent)]);
    RunCons(Create(), Call(A, Absent), [Settle(0, c), Call(A, Absent)]);
  }
}
