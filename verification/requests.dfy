/** What a caller passes as `input` (a `RequestInfo`) and `init` (a `RequestInit`).
    Matching in the source compares both with `deep-equal` in its default,
    non-strict mode; here the values form a closed datatype and the comparison
    is Dafny's structural `==`, which keeps apart primitives that loose `==`
    would equate (`null` and an omitted init, `1` and `"1"`). */
module Requests {
  import opened Wrappers

  /** The structured values a request target or init record is built from. */
  datatype Value =
    | Null
    | Bool(b: bool)
    | Num(n: int)
    | Str(s: string)
    | List(items: seq<Value>)
    | Record(fields: map<string, Value>)

  /** The `(input, init)` pair a cache entry is keyed by; an omitted `init` is `None`. */
  datatype Request = Request(input: Value, init: Option<Value>)
}
