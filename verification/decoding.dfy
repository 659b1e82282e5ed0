/** The first continuation of a dispatched fetch (fetch-suspense.ts lines 66-81):
    it turns the network response into the value the cache will hold. */
module Decoding {
  import opened Wrappers
  import opened Text

  /** What a failed fetch or a failed body read rejects with: a value thrown
      by the transport or the stream, or the `TypeError` a `Response` raises
      when its body is read a second time. */
  datatype Failure = Thrown(reason: string) | BodyAlreadyRead

  /** A response body: none at all (`null`), or a stream whose complete read
      as text either yields the text or fails. */
  datatype Body = NoBody | Stream(read: Result<string, Failure>)

  /** The parts of a network response the decoder looks at: the status (kept
      only to be handed back in info mode), the `Content-Type` header if any,
      and the body. */
  datatype HttpResponse = HttpResponse(status: int, contentType: Option<string>, body: Body)

  /** The value a resolved entry holds: the bare body text, or in info mode
      the record `{data, response}`. */
  datatype Cached = Plain(data: string) | WithInfo(data: string, response: HttpResponse)

  /** What the decoder did: whether it started a JSON read (whose result is
      then thrown away), and the value or failure that settles the entry. */
  datatype Decoded = Decoded(jsonReadStarted: bool, value: Result<Cached, Failure>)

  const JsonMediaType: string := "application/json"

  /** `contentType && contentType.indexOf("application/json") !== -1`. */
  predicate DeclaresJson(r: HttpResponse) {
    r.contentType.Some? && r.contentType.value != "" && IndexOf(r.contentType.value, JsonMediaType) != -1
  }

  /** `response.text()` at line 76. A `null` body reads as the empty text. A
      stream body that `response.json()` at line 74 has already started to
      consume can no longer be read, so the text read fails; otherwise the
      stream's own outcome is the result. */
  function TextRead(r: HttpResponse): Result<string, Failure>
  {
    match r.body
    case NoBody => Ok("")
    case Stream(read) => if DeclaresJson(r) then Err(BodyAlreadyRead) else read
  }

  /** Decoding as the source writes it: a JSON content type starts a JSON
      read, whose result is discarded; the text read that follows is what
      settles the entry, and `info` wraps its text together with the response. */
  function Decode(r: HttpResponse, info: bool): (d: Decoded)
    ensures d.jsonReadStarted <==> r.contentType.Some? && exists j: nat :: OccursAt(r.contentType.value, JsonMediaType, j)
    // the JSON read consumed the body, so the text read fails
    ensures d.jsonReadStarted && r.body.Stream? ==> d.value == Err(BodyAlreadyRead)
    // no JSON read, or no body to consume: the text read is the body's own
    ensures !d.jsonReadStarted && r.body.Stream? ==>
      && (d.value.Ok? <==> r.body.read.Ok?)
      && (d.value.Ok? ==> d.value.value.data == r.body.read.value)
      && (d.value.Err? ==> d.value.error == r.body.read.error)
    ensures r.body.NoBody? ==> d.value.Ok? && d.value.value.data == ""
    ensures d.value.Ok? ==> (d.value.value.WithInfo? <==> info)
    ensures d.value.Ok? && info ==> d.value.value.response == r
  {
    Decoded(
      DeclaresJson(r),
      match TextRead(r)
      case Ok(t) => Ok(if info then WithInfo(t, r) else Plain(t))
      case Err(e) => Err(e))
  }

  /** Every response that declares JSON and carries a body fails to decode:
      `text()` rejects because `json()` already took the body. */
  lemma JsonBodyAlwaysFails(r: HttpResponse, info: bool)
    requires DeclaresJson(r) && r.body.Stream?
    ensures Decode(r, info).value == Err(BodyAlreadyRead)
  {
    var i := IndexOf(r.contentType.value, JsonMediaType);
    assert OccursAt(r.contentType.value, JsonMediaType, i);
  }

  /** A response that does not declare JSON decodes to its body text, or to
      the failure of reading it. */
  lemma OtherResponsesKeepText(r: HttpResponse, info: bool)
    requires !DeclaresJson(r) && r.body.Stream?
    ensures Decode(r, info).value.Ok? <==> r.body.read.Ok?
    ensures Decode(r, info).value.Ok? ==> Decode(r, info).value.value.data == r.body.read.value
    ensures Decode(r, info).value.Err? ==> Decode(r, info).value.error == r.body.read.error
  {
    if r.contentType.Some? && r.contentType.value != "" {
      assert IndexOf(r.contentType.value, JsonMediaType) == -1;
    }
  }
}
