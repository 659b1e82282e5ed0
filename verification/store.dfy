/** The `FetchCache` records and the ordered list the hook keeps them in:
    lookup by request (the `for…of` scan), lookup by identity (`indexOf`) and
    removal by identity (`splice`). */
module Store {
  import opened Wrappers
  import opened Seqs
  import opened Requests
  import opened Decoding

  /** The in-flight handle of an entry, which is also its identity: every
      dispatch produces a fresh one and each entry object is pushed once. */
  type Handle = nat

  /** One `FetchCache`: `fetch` is always set; `response` is set when the
      request resolved and `error` when it failed. */
  datatype Entry = Entry(fetch: Handle, request: Request, response: Option<Cached>, error: Option<Failure>) {
    /** The entry has left the pending state. */
    predicate Settled() {
      response.Some? || error.Some?
    }
  }

  /** The first entry, in insertion order, whose `input` and `init` both equal the query's. */
  function FirstMatch(caches: seq<Entry>, q: Request): (r: Option<nat>)
    ensures r.Some? ==> r.value < |caches| && caches[r.value].request == q
    ensures r.Some? ==> forall j :: 0 <= j < r.value ==> caches[j].request != q
    ensures r.None? <==> forall j :: 0 <= j < |caches| ==> caches[j].request != q
  {
    FirstIndex(caches, (e: Entry) => e.request == q)
  }

  /** `caches.indexOf(entry)`: the position of the entry with this identity. */
  function FindById(caches: seq<Entry>, id: Handle): (r: Option<nat>)
    ensures r.Some? ==> r.value < |caches| && caches[r.value].fetch == id
    ensures r.Some? ==> forall j :: 0 <= j < r.value ==> caches[j].fetch != id
    ensures r.None? <==> forall j :: 0 <= j < |caches| ==> caches[j].fetch != id
  {
    FirstIndex(caches, (e: Entry) => e.fetch == id)
  }

  /** Lookup by request only sees requests: two lists holding the same
      requests in the same order answer every lookup alike. */
  lemma FirstMatchSeesOnlyRequests(caches: seq<Entry>, caches': seq<Entry>, q: Request)
    requires |caches| == |caches'|
    requires forall j :: 0 <= j < |caches| ==> caches[j].request == caches'[j].request
    ensures FirstMatch(caches, q) == FirstMatch(caches', q)
  {
    FirstIndexCongruent(caches, caches', (e: Entry) => e.request == q);
  }

  /** No two entries share an identity. */
  predicate UniqueIds(caches: seq<Entry>) {
    forall i, j :: 0 <= i < j < |caches| ==> caches[i].fetch != caches[j].fetch
  }

  /** No two entries share an `(input, init)` pair. */
  predicate UniqueRequests(caches: seq<Entry>) {
    forall i, j :: 0 <= i < j < |caches| ==> caches[i].request != caches[j].request
  }

  /** `index = caches.indexOf(entry); if (index !== -1) caches.splice(index, 1)`. */
  function RemoveById(caches: seq<Entry>, id: Handle): (r: seq<Entry>)
    ensures FindById(caches, id).None? ==> r == caches
    ensures FindById(caches, id).Some? ==> |r| == |caches| - 1
    ensures multiset(r) <= multiset(caches)
  {
    match FindById(caches, id)
    case None => caches
    case Some(i) => RemoveAt(caches, i)
  }

  /** Reference definition of eviction: every entry except the one with this
      identity, in the original order. */
  function Without(caches: seq<Entry>, id: Handle): (r: seq<Entry>)
  {
    if |caches| == 0 then []
    else if caches[0].fetch == id then Without(caches[1..], id)
    else [caches[0]] + Without(caches[1..], id)
  }

  /** Removing by identity keeps every other entry in order: with identities
      unique it is exactly the reference filter. */
  lemma {:induction false} RemoveByIdIsWithout(caches: seq<Entry>, id: Handle)
    requires UniqueIds(caches)
    ensures RemoveById(caches, id) == Without(caches, id)
  {
    if |caches| == 0 {
    } else {
      var tail := caches[1..];
      assert UniqueIds(tail);
      RemoveByIdIsWithout(tail, id);
      if caches[0].fetch == id {
        assert FindById(caches, id) == Some(0);
        assert forall j :: 0 <= j < |tail| ==> tail[j].fetch != id;
        WithoutAbsent(tail, id);
      } else {
        FindByIdTail(caches, id);
      }
    }
  }

  /** Filtering out an identity that is not there changes nothing. */
  lemma {:induction false} WithoutAbsent(caches: seq<Entry>, id: Handle)
    requires forall j :: 0 <= j < |caches| ==> caches[j].fetch != id
    ensures Without(caches, id) == caches
  {
    if |caches| > 0 {
      WithoutAbsent(caches[1..], id);
    }
  }

  /** When the head is not the entry sought, removal happens in the tail. */
  lemma FindByIdTail(caches: seq<Entry>, id: Handle)
    requires |caches| > 0 && caches[0].fetch != id
    ensures RemoveById(caches, id) == [caches[0]] + RemoveById(caches[1..], id)
  {
    var tail := caches[1..];
    FindByIdShift(caches, id);
    match FindById(tail, id)
    case None =>
    case Some(k) =>
      var r, r' := RemoveAt(caches, k + 1), [caches[0]] + RemoveAt(tail, k);
      assert |r| == |r'|;
      assert forall j :: 0 <= j < |r| ==> r[j] == r'[j];
  }

  /** Looking past a head that does not match shifts the found index by one. */
  lemma FindByIdShift(caches: seq<Entry>, id: Handle)
    requires |caches| > 0 && caches[0].fetch != id
    ensures FindById(caches, id) ==
      match FindById(caches[1..], id)
      case None => None
      case Some(k) => Some(k + 1)
  {
  }

  /** Eviction is idempotent: removing the same identity twice is removing it once. */
  lemma RemoveByIdIdempotent(caches: seq<Entry>, id: Handle)
    requires UniqueIds(caches)
    ensures RemoveById(RemoveById(caches, id), id) == RemoveById(caches, id)
  {
    RemoveByIdIsWithout(caches, id);
    WithoutRemovesAll(caches, id);
    WithoutAbsent(Without(caches, id), id);
    var once := RemoveById(caches, id);
    assert FindById(once, id).None?;
  }

  /** The filter leaves no entry with the removed identity. */
  lemma {:induction false} WithoutRemovesAll(caches: seq<Entry>, id: Handle)
    ensures forall j :: 0 <= j < |Without(caches, id)| ==> Without(caches, id)[j].fetch != id
  {
    if |caches| > 0 {
      WithoutRemovesAll(caches[1..], id);
    }
  }

  /** After the entry for a request is removed, a lookup of that request misses,
      while a lookup of any other request finds the same entry as before. */
  lemma RemovedRequestMisses(caches: seq<Entry>, i: nat)
    requires UniqueIds(caches) && UniqueRequests(caches)
    requires i < |caches|
    ensures FirstMatch(RemoveById(caches, caches[i].fetch), caches[i].request).None?
    ensures forall q :: q != caches[i].request && FirstMatch(caches, q).Some? ==>
      FirstMatch(RemoveById(caches, caches[i].fetch), q).Some? &&
      RemoveById(caches, caches[i].fetch)[FirstMatch(RemoveById(caches, caches[i].fetch), q).value]
        == caches[FirstMatch(caches, q).value]
  {
    FirstIndexOfOnly(caches, (e: Entry) => e.fetch == caches[i].fetch, i);
    var r := RemoveById(caches, caches[i].fetch);
    assert r == RemoveAt(caches, i);
    forall q | q != caches[i].request && FirstMatch(caches, q).Some?
      ensures FirstMatch(r, q).Some? && r[FirstMatch(r, q).value] == caches[FirstMatch(caches, q).value]
    {
      var k := FirstMatch(caches, q).value;
      var k' := if k < i then k else k - 1;
      assert r[k'] == caches[k];
      FirstIndexOfOnly(r, (e: Entry) => e.request == q, k');
    }
  }
}
