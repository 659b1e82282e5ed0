# fetch-suspense: the request-memoization hook, modelled in Dafny

`createUseFetch(fetch)` returns a hook that memoizes network requests for a
synchronous caller. Each hook owns an ordered list of cache entries keyed by
the request's `(input, init)` pair. A call scans the list in insertion order.
When it finds a matching entry, it reports that entry's state:
- the captured error is thrown;
- otherwise the cached response is returned;
- otherwise the in-flight promise is thrown, so a Suspense boundary can wait.

When it finds no match, it appends a new pending entry, dispatches the
request once, and throws the new promise. The promise chain of a dispatched
request has three stages:
- decoding: it reads the body as text, wrapped as `{data, response}` in
  info mode. A JSON-typed response with a body fails here (see below);
- settlement: it records either `response` or `error`, and the two are never
  both set;
- eviction: when the call's lifespan is positive, it arms a timer. When the
  timer fires, it removes the entry by identity.

The model is a pure state machine:

- `Requests`: the deep-equal domain. It is a closed `Value` datatype, so deep
  equality becomes structural `==`. It also defines `Request(input, init)`.
- `FetchOptions`: the third argument. It can be omitted, a number, or
  `{lifespan?, info?}`. The module also gives `options || {}`, the effective
  lifespan and info mode.
- `Text`: `String.prototype.indexOf`. It is used for the `Content-Type`
  test.
- `Decoding`: the first `.then` of the chain.
- `Store`: the `FetchCache` entries and the list operations on them:
  - lookup by request;
  - `indexOf` by identity;
  - `splice` by identity;
  - a reference filter that states what eviction must leave.
- `UseFetch`: the hook state. It holds the cache list, the chains still
  waiting on the network ("flights"), the armed timers, and the next handle
  the dispatcher hands out. It also holds the three steps:
  - `Call`, the synchronous hook body;
  - `Settle`, the network answering one dispatched request;
  - `Expire`, one eviction timer firing.

  `Valid` is the invariant of reachable states.
- `Invariant`, `Lifecycle`: every step preserves `Valid`, plus one-step
  properties of hits, settlement and eviction.
- `Runs`: event sequences. Their properties are proved by induction: dedup,
  no eviction by default, and settled entries never change.
- `Scenarios`: concrete runs of a fresh hook.

Two behaviours of the code are easy to misread:
- An entry keeps its `fetch` promise after it settles. A hit never throws it
  then, because `error` and `response` are checked first.
- When the content type names `application/json`, the decoder calls
  `response.json()` (line 74) and discards the result. It then calls
  `response.text()` (line 76) on the same response. Under the body-consumption
  rule of the Fetch standard, a body whose read has already begun cannot be
  read again, so that text read rejects with a `TypeError`. Every JSON-typed
  response with a body therefore settles its entry as errored, and callers
  are thrown that error until the entry is evicted. Only responses that do
  not declare JSON, or that have no body, are cached as text. The model
  follows this: `Decode` fails with `BodyAlreadyRead` in exactly that case
  (`JsonBodyAlwaysFails`).

## Model

| member | source | states |
|---|---|---|
| Text.IndexOf | src/fetch-suspense.ts:73 | the result is the first position where the pattern occurs, and it is -1 exactly when the pattern occurs nowhere |
| FetchOptions.Normalize | src/fetch-suspense.ts:68 | replacing a falsy argument by `{}` yields a truthy record or number: falsy arguments become the empty record and everything else is kept |
| FetchOptions.Lifespan | src/fetch-suspense.ts:101-106 | a number is its own lifespan; a record gives its `lifespan`; any nonzero lifespan comes from what the caller passed |
| FetchOptions.LifespanIgnoresNormalize | src/fetch-suspense.ts:99-107 | the lifespan is the same whether or not the falsy argument was first replaced by `{}`, so a transport failure and a success schedule eviction alike |
| FetchOptions.InfoModeIgnoresNormalize | src/fetch-suspense.ts:68-77 | info mode is the same whether or not the falsy argument was first replaced by `{}` |
| FetchOptions.NumbersNeverAskForInfo | src/fetch-suspense.ts:77 | a numeric or omitted options argument never enables info mode |
| FetchOptions.DefaultIsNoEviction | src/fetch-suspense.ts:101-107 | an omitted argument, or a record without `lifespan`, gives lifespan 0 |
| Decoding.Decode | src/fetch-suspense.ts:66-81 | a JSON read starts iff the content type contains `application/json`. A JSON-typed response with a body then fails with `BodyAlreadyRead`. Otherwise, a body's text or read failure is passed on unchanged, and no body gives the empty text. The `{data, response}` form, holding this response, is used iff info mode is on |
| Decoding.JsonBodyAlwaysFails | src/fetch-suspense.ts:73-76 | every response that declares JSON and has a body decodes to the body-already-read failure |
| Decoding.OtherResponsesKeepText | src/fetch-suspense.ts:76-80 | a response that does not declare JSON decodes to its body text, or to the failure of reading it |
| Store.FirstMatch | src/fetch-suspense.ts:41-43 | the index found holds an entry equal to the query on both `input` and `init`, with no matching entry before it; `None` iff no entry matches |
| Store.FirstMatchSeesOnlyRequests | src/fetch-suspense.ts:43 | a lookup depends only on the entries' requests, not on their settlement state |
| Store.FindById | src/fetch-suspense.ts:109 | `indexOf`: the first position holding that identity; `None` iff there is none |
| Store.RemoveById | src/fetch-suspense.ts:109-112 | an absent identity leaves the list unchanged; otherwise exactly one entry goes and nothing new appears |
| Store.RemoveByIdIsWithout | src/fetch-suspense.ts:109-112 | with unique identities, splicing by identity equals the reference filter that keeps every other entry in order |
| Store.RemoveByIdIdempotent | src/fetch-suspense.ts:108-113 | removing the same identity twice equals removing it once |
| Store.RemovedRequestMisses | src/fetch-suspense.ts:108-113 | after removal, the removed request misses and every other request still finds the same entry |
| UseFetch.Create | src/fetch-suspense.ts:29-33 | a new hook has an empty list of its own and satisfies the invariant |
| UseFetch.Report | src/fetch-suspense.ts:46-57 | an error wins over a response, and a response over the handle; a hit throws the handle iff the entry is pending, and that handle is the entry's own; an error thrown or a value returned is the one stored |
| UseFetch.Call | src/fetch-suspense.ts:41-121 | on a hit: no state change, no dispatch, and the first match reports. On a miss: exactly the caller's request is dispatched, and one pending entry with that request is appended. The chain waiting for it records the caller's options, which later decide info mode and lifespan. Prior entries and timers are unchanged, and the new handle is thrown |
| UseFetch.SettleEntry | src/fetch-suspense.ts:66-96 | identity and key are kept, and the entry ends settled with exactly one of `response` and `error`. A transport failure is stored verbatim. A response stores what `Decode` made of it in the call's info mode: the value, or the failure itself. A JSON-typed response with a body stores `BodyAlreadyRead` |
| UseFetch.Settle | src/fetch-suspense.ts:85-107 | the entry with that handle becomes its settlement under the dispatching call's options, and every other entry is unchanged. That request's chain is consumed and every other chain is kept in order. A timer is armed with that call's lifespan iff the lifespan is positive. A handle with no waiting chain changes nothing |
| UseFetch.Expire | src/fetch-suspense.ts:108-113 | the fired timer, and only it, is removed from the armed timers. Its entry is removed by identity, and waiting chains are unchanged. With no armed timer nothing happens |
| Invariant.CallKeepsValid | src/fetch-suspense.ts:41-120 | a call preserves the invariant, in particular at most one entry per `(input, init)` |
| Invariant.SettleKeepsValid | src/fetch-suspense.ts:85-107 | settlement preserves the invariant, including that no entry is both resolved and errored |
| Invariant.ExpireKeepsValid | src/fetch-suspense.ts:108-113 | eviction preserves the invariant |
| Lifecycle.ReportReflectsState | src/fetch-suspense.ts:46-57 | for an entry never both resolved and errored: a value iff resolved with it, an error iff errored with it, a handle iff pending |
| Lifecycle.CallTwice | src/fetch-suspense.ts:41-64 | a second equal call right after any call dispatches nothing, changes nothing and signals the same outcome |
| Lifecycle.SettleIsOneWay | src/fetch-suspense.ts:85-96 | a settled entry is left unchanged by any settlement |
| Lifecycle.SettleKeepsOtherChains | src/fetch-suspense.ts:38-113 | settling one request leaves every other waiting chain in place, with the options of the call that dispatched it, so its later lifespan and info mode are those of its own call |
| Lifecycle.SettleOnce | src/fetch-suspense.ts:85-96 | a second settlement of the same request has no effect |
| Lifecycle.SettleSchedulesEviction | src/fetch-suspense.ts:99-107 | settlement arms exactly one timer, for that entry and with the call's lifespan, iff the lifespan is positive |
| Lifecycle.JsonResponseSettlesErrored | src/fetch-suspense.ts:46-96 | a JSON-typed answer with a body leaves the entry errored with `BodyAlreadyRead`, and the next call with its request is thrown that failure |
| Lifecycle.NoTimerWhilePending | src/fetch-suspense.ts:99-108 | no timer is ever armed for a pending entry |
| Lifecycle.ExpireRemovesOnlyItsEntry | src/fetch-suspense.ts:108-113 | firing a timer removes exactly the entries with that identity, keeps every other entry in order, and never removes a pending entry |
| Lifecycle.ExpireIdempotent | src/fetch-suspense.ts:108-113 | firing the same timer twice equals firing it once |
| Lifecycle.ExpireThenCallMisses | src/fetch-suspense.ts:108-121 | after its timer fires, a call with the evicted request misses and dispatches it exactly once |
| Runs.RunKeepsValid | src/fetch-suspense.ts:29-123 | every event sequence from a valid hook ends in a valid hook |
| Runs.StepDispatch | src/fetch-suspense.ts:41-64 | one event dispatches a request at most once and leaves it listed; a listed request stays listed and undispatched unless a timer fires |
| Runs.DispatchedAtMostOnce | src/fetch-suspense.ts:41-120 | with no eviction in the run, each request is dispatched at most once, and never if it was already listed |
| Runs.NoEvictionByDefault | src/fetch-suspense.ts:99-107 | when no call has a positive lifespan, a listed request stays listed and is never dispatched again, even if timers are asked to fire |
| Runs.SettledStaysSettled | src/fetch-suspense.ts:85-113 | after any run, an entry carrying a settled entry's identity is that entry, unchanged |
| Scenarios.SuspendThenValue | src/fetch-suspense.ts:41-96 | `("/a")` suspends twice on one dispatch; after a plain-text answer `x`, it returns the text `x` |
| Scenarios.LifespanEvicts | src/fetch-suspense.ts:99-121 | with lifespan 1000, settle then fire, and the next call dispatches exactly once more |
| Scenarios.NoLifespanKeeps | src/fetch-suspense.ts:101-107 | without a lifespan, the same events leave the entry in place and the call returns its value |
| Scenarios.FailureIsReported | src/fetch-suspense.ts:92-96 | a failed fetch is thrown to the next caller as the same error |
| Scenarios.InfoModeWraps | src/fetch-suspense.ts:77-79 | with `info: true` and a plain-text answer, the cached value pairs the body text with the response |
| Scenarios.JsonBodyFails | src/fetch-suspense.ts:73-96 | a JSON-typed answer with a body settles the entry errored, and the next call is thrown `BodyAlreadyRead` |

## Left out

- The transport and the `Response` object. `HttpResponse` keeps only the status, the `Content-Type` header and the body. The body is either absent or a stream whose complete read yields text or fails. Headers other than `Content-Type` are not modelled. The discarded JSON read's own result, and its unhandled rejection, are not modelled either.
- `deep-equal`: replaced by structural equality on a closed `Value` datatype. Object identity, prototypes, functions, `Request` objects and binary or stream bodies are not modelled. Neither are the loose `==` coercions between primitives of its default non-strict mode: a `null` init and an omitted init, or `1` and `"1"`, are different requests here.
- Promises, `setTimeout` and time: each settlement and each timer firing is an explicit event. Without a clock, armed timers may fire in any order. A timer keeps its delay but nothing enforces it.
- The dispatcher is an abstract handle generator. A thrown promise is identified by its handle. The promise's later resolution, after the lifespan stage, is not modelled.
- JavaScript numbers: lifespans are integers. Fractions, `NaN`, `Infinity`, a `null` options argument and non-numeric `lifespan` fields are not modelled.
- Thrown values of arbitrary type are modelled as `Failure(reason)`.
- The module export wiring and default instances (src/fetch-suspense.ts:125-130), plus React Suspense and error-boundary consumers: environment glue.
