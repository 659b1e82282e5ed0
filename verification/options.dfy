/** The hook's third argument (`UseFetchOptions | number`, or omitted) and the
    three ways the settlement chain reads it: `options || {}`, the lifespan
    before eviction, and whether the cached value carries the response. */
module FetchOptions {
  import opened Wrappers

  /** Omitted, a bare number of milliseconds, or an options record whose
      `lifespan` and `info` fields may each be left out. */
  datatype Options =
    | Absent
    | Millis(ms: int)
    | Config(lifespan: Option<int>, info: Option<bool>)

  /** JavaScript falsiness of the argument: `undefined` and the number 0. */
  predicate Falsy(o: Options) {
    o.Absent? || o == Millis(0)
  }

  /** `options = options || {}`: a falsy argument becomes the empty record,
      anything else is kept as given. */
  function Normalize(o: Options): (r: Options)
    ensures !Falsy(r) && !r.Absent?
    ensures r == o || (Falsy(o) && r == Config(None, None))
  {
    if Falsy(o) then Config(None, None) else o
  }

  /** The delay before a settled entry is evicted: a number is taken as is,
      a record gives `lifespan || 0`, anything else gives 0. Only a positive
      result schedules an eviction. */
  function Lifespan(o: Options): (r: int)
    ensures o.Millis? ==> r == o.ms
    ensures r != 0 ==> (o.Millis? && r == o.ms) || (o.Config? && o.lifespan == Some(r))
    ensures o.Config? && o.lifespan.Some? ==> r == o.lifespan.value
  {
    match o
    case Millis(n) => n
    case Config(l, _) => l.GetOr(0)
    case Absent => 0
  }

  /** `typeof options === 'object' && options.info`: only a record whose
      `info` is true asks for the response alongside the body. */
  predicate InfoMode(o: Options)
  {
    o.Config? && o.info == Some(true)
  }

  /** The eviction delay is the same whether or not `options || {}` ran first,
      so a transport failure (which skips the normalizing step) and a
      successful fetch schedule eviction alike. */
  lemma LifespanIgnoresNormalize(o: Options)
    ensures Lifespan(Normalize(o)) == Lifespan(o)
  {
  }

  /** Info mode is the same whether or not `options || {}` ran first. */
  lemma InfoModeIgnoresNormalize(o: Options)
    ensures InfoMode(Normalize(o)) == InfoMode(o)
  {
  }

  /** A numeric or omitted argument never enables info mode, before or after normalizing. */
  lemma NumbersNeverAskForInfo(o: Options)
    requires !o.Config?
    ensures !InfoMode(o) && !InfoMode(Normalize(o))
  {
  }

  /** With no argument, or a record without a lifespan, nothing is ever evicted. */
  lemma DefaultIsNoEviction(info: Option<bool>)
    ensures Lifespan(Absent) == 0 && Lifespan(Normalize(Absent)) == 0
    ensures Lifespan(Config(None, info)) == 0
  {
  }
}
