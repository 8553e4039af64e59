/** The catalog cache of cargarProductos and productosActualizados, as a
    pure transition on the two pieces of module state it keeps: the product
    listing and the time of the last successful load. The clock is a
    parameter, in milliseconds since the epoch, as JavaScript's Date
    subtraction gives it. */
module Cache {
  import opened Options
  import opened Retrieval

  /** REFRESH_MINUTOS */
  const RefreshMinutes := 30

  /** The refresh period in milliseconds. */
  const RefreshMillis := RefreshMinutes * 60 * 1000

  /** What fetch(PRODUCTOS_URL) and res.json() come to: the parsed
      listing, a response whose status is not ok, or an exception (network
      failure or malformed JSON). */
  datatype FetchOutcome = Fetched(listing: seq<Product>) | HttpError(status: int) | Failed

  /** productos and ultimaActualizacion; None is the initial null. */
  datatype CacheState = CacheState(products: seq<Product>, lastUpdate: Option<int>)

  const Initial := CacheState([], None)

  /** (ahora - ultimaActualizacion) / 1000 / 60, with real division
      standing for the floating-point one. */
  function MinutesSince(last: int, now: int): real {
    (now - last) as real / 1000.0 / 60.0
  }

  /** The condition of productosActualizados: no timestamp (Infinity
      minutes), thirty minutes or more since the last load, or an empty
      listing. */
  predicate RefreshDue(s: CacheState, now: int)
    ensures RefreshDue(s, now) <==>
      (s.lastUpdate.None? || now - s.lastUpdate.value >= RefreshMillis || |s.products| == 0)
  {
    if s.lastUpdate.None? then true
    else
      MinutesTestInMillis(s.lastUpdate.value, now);
      MinutesSince(s.lastUpdate.value, now) >= RefreshMinutes as real || |s.products| == 0
  }

  /** cargarProductos: only a fetched listing replaces the state, stamped
      with the time the load finished. */
  function AfterLoad(s: CacheState, outcome: FetchOutcome, completedAt: int): (r: CacheState)
    ensures !outcome.Fetched? ==> r == s
    ensures outcome.Fetched? ==> r.products == outcome.listing
    ensures outcome.Fetched? ==> (RefreshDue(r, completedAt) <==> |outcome.listing| == 0)
  {
    match outcome
    case Fetched(listing) => CacheState(listing, Some(completedAt))
    case _ => s
  }

  /** productosActualizados: the state after the call. */
  function AfterCurrent(s: CacheState, now: int, outcome: FetchOutcome, completedAt: int): (r: CacheState)
    ensures !RefreshDue(s, now) ==> r == s
    ensures RefreshDue(s, now) && outcome.Fetched? && |outcome.listing| > 0 ==> !RefreshDue(r, completedAt)
  {
    if RefreshDue(s, now) then AfterLoad(s, outcome, completedAt) else s
  }

  /** The minutes test is the integer test now - last >= 1800000. */
  lemma MinutesTestInMillis(last: int, now: int)
    ensures MinutesSince(last, now) >= RefreshMinutes as real <==> now - last >= RefreshMillis
  {
    var d := now - last;
    assert MinutesSince(last, now) == d as real / 60000.0;
    if d >= RefreshMillis {
      assert d as real >= 1800000.0;
    } else {
      assert d as real <= 1799999.0;
    }
  }

  /** A fetch that fails, whether by status or by exception, changes
      neither the listing nor the timestamp. */
  lemma FailedLoadKeepsState(s: CacheState, now: int, outcome: FetchOutcome, completedAt: int)
    requires !outcome.Fetched?
    ensures AfterCurrent(s, now, outcome, completedAt) == s
  {
  }

  /** The cache is refetched exactly when a refresh is due: otherwise the
      listing served is the one held, whatever the fetch would have
      returned. */
  lemma ServedListing(s: CacheState, now: int, outcome: FetchOutcome, completedAt: int)
    ensures AfterCurrent(s, now, outcome, completedAt).products ==
      if RefreshDue(s, now) && outcome.Fetched? then outcome.listing else s.products
  {
  }

  /** A non-empty listing loaded at time t is served from the cache for
      the thirty minutes that follow. */
  lemma FreshListingServed(s: CacheState, listing: seq<Product>, t: int, now: int, outcome: FetchOutcome, completedAt: int)
    requires |listing| > 0
    requires t <= now < t + RefreshMillis
    ensures !RefreshDue(AfterLoad(s, Fetched(listing), t), now)
    ensures AfterCurrent(AfterLoad(s, Fetched(listing), t), now, outcome, completedAt) == CacheState(listing, Some(t))
  {
  }

  /** Once thirty minutes have passed since the last load, the next call
      refetches. */
  lemma StaleListingRefetched(s: CacheState, now: int)
    requires s.lastUpdate.Some? && now - s.lastUpdate.value >= RefreshMillis
    ensures RefreshDue(s, now)
  {
  }

  /** An empty listing is refetched on every call, however recent the
      last load. */
  lemma EmptyListingRefetched(s: CacheState, now: int)
    requires |s.products| == 0
    ensures RefreshDue(s, now)
  {
  }
}
