/**
 * `GET /api/entries` of src/app/api/entries/route.ts: the same page and
 * cache logic as `getEntries`, over the cache of src/lib/entries-cache.ts
 * and the src/lib/google-sheets.ts reader, with the query parameters as
 * input and a JSON body or a 500 response as output.
 */
module EntriesRoute {
  import opened Wrappers
  import opened AppConfig
  import opened Rows
  import opened TtlCache
  import opened Paging
  import opened CacheActions
  import opened EntriesAction
  import GoogleSheets

  /**
   * The query parameters after `Number(...)`: `None` when the parameter is
   * absent or empty, otherwise the number it reads as.
   */
  datatype Query = Query(page: Option<int>, pageSize: Option<int>, revalidate: Option<string>)

  /** `Number(searchParams.get("page") || "1")`: an explicit "0" stays 0. */
  function QueryPage(q: Query): int {
    if q.page.Some? then q.page.value else 1
  }

  /** `Number(searchParams.get("pageSize") || config.ui.pageSize || 50)`: an explicit "0" stays 0. */
  function QueryPageSize(q: Query, cfg: Config): int {
    if q.pageSize.Some? then q.pageSize.value else OrNumber(Some(cfg.pageSize), DefaultPageSize)
  }

  /** `searchParams.get("revalidate") === "true"`. */
  predicate QueryForced(q: Query) {
    q.revalidate == Some("true")
  }

  /**
   * `Math.max(1, Math.ceil(total / pageSize))` as JSON: a page size of 0
   * divides to Infinity or NaN, which `JSON.stringify` writes as null.
   * The sign of a zero page size is not carried: a "-0" parameter reads as 0.
   */
  function PagesField(total: int, pageSize: int): Option<int> {
    if pageSize == 0 then None else Some(TotalPages(total, pageSize))
  }

  /** The JSON body of a successful response. */
  datatype Body = Body(
    entries: seq<Entry>,
    total: int,
    page: int,
    pageSize: int,
    totalPages: Option<int>,
    cache: CacheStatus,
    source: Option<Source>)

  datatype Response = Json(body: Body) | ServerError(status: int, error: string)

  /**
   * The text of the TypeError raised by reading `res.entries` when the
   * reader returned undefined; the catch passes it out as the error.
   */
  const UndefinedResultMessage: string := "Cannot read properties of undefined (reading 'entries')"

  /** The listing a MISS loads, or `None` when the sheet reader returned undefined. */
  function RouteLoaded(cfg: Config, fetch: Fetch, mock: seq<Entry>): Option<Listing> {
    if UsesMock(cfg) then Some(Listing(Numbered(mock), |mock|)) else GoogleSheets.ReadEntries(cfg, fetch)
  }

  function PageBody(l: Listing, page: int, pageSize: int, cache: CacheStatus, source: Option<Source>): Body {
    Body(PageSlice(l.entries, page, pageSize), l.total, page, pageSize, PagesField(l.total, pageSize), cache, source)
  }

  datatype Answered = Answered(response: Response, store: Store<Listing>)

  /**
   * What `GET` answers and leaves in the cache, as a function of the store it
   * finds. `now` is the clock when the cache is read and `setNow` the clock
   * when a loaded listing is stored, after the awaited sheet read.
   */
  function Respond(store: Store<Listing>, cfg: Config, q: Query, now: int, setNow: int, fetch: Fetch,
                   mock: seq<Entry>): (a: Answered)
    requires now <= setNow
    ensures forall k :: k != EntriesKey ==> (k in a.store <==> k in store) && (k in store ==> a.store[k] == store[k])
  {
    var page, ps := QueryPage(q), QueryPageSize(q, cfg);
    var cached := if QueryForced(q) then None else Lookup(store, EntriesKey, now);
    var kept := if QueryForced(q) then store else AfterGet(store, EntriesKey, now);
    match cached
    case Some(l) => Answered(Json(PageBody(l, page, ps, Hit, None)), kept)
    case None =>
      match RouteLoaded(cfg, fetch, mock)
      case None => Answered(ServerError(500, UndefinedResultMessage), kept)
      case Some(l) =>
        Answered(Json(PageBody(l, page, ps, Miss, Some(if UsesMock(cfg) then Mock else Sheets))),
                 Put(kept, EntriesKey, l, TtlMs, setNow))
  }

  /**
   * `GET`, over the module cache of src/lib/entries-cache.ts. `now` and
   * `setNow` are the two readings of `Date.now()`, by `cacheGet` and by `cacheSet`.
   */
  method Get(cache: Cache<Listing>, cfg: Config, q: Query, now: int, setNow: int, fetch: Fetch, mock: seq<Entry>)
    returns (resp: Response)
    requires now <= setNow
    modifies cache
    ensures Answered(resp, cache.store) == Respond(old(cache.store), cfg, q, now, setNow, fetch, mock)
  {
    var page := if q.page.Some? then q.page.value else 1;
    var pageSize := if q.pageSize.Some? then q.pageSize.value
                    else if cfg.pageSize != 0 then cfg.pageSize else DefaultPageSize;
    var force := q.revalidate == Some("true");
    var useMock := cfg.useMock || !EnvReady(cfg);
    assert page == QueryPage(q) && pageSize == QueryPageSize(q, cfg) && force == QueryForced(q);

    var cached: Option<Listing> := None;
    if !force {
      cached := cache.Get(EntriesKey, now);
    }
    if cached.Some? {
      resp := Json(PageBody(cached.value, page, pageSize, Hit, None));
      return;
    }

    var entries: seq<Entry> := [];
    var total := 0;
    if useMock {
      entries := Numbered(mock);
      total := |entries|;
    } else {
      var res := GoogleSheets.ReadEntries(cfg, fetch);
      if res.None? {
        resp := ServerError(500, UndefinedResultMessage);
        return;
      }
      entries := res.value.entries;
      total := res.value.total;
    }
    cache.Set(EntriesKey, Listing(entries, total), TtlMs, setNow);
    resp := Json(PageBody(Listing(entries, total), page, pageSize, Miss, Some(if useMock then Mock else Sheets)));
  }

  /** A response is a HIT exactly when `revalidate` is not "true" and the cache holds a live listing. */
  lemma RouteHitIffCached(store: Store<Listing>, cfg: Config, q: Query, now: int, setNow: int, fetch: Fetch,
                          mock: seq<Entry>)
    requires now <= setNow
    ensures var resp := Respond(store, cfg, q, now, setNow, fetch, mock).response;
      (resp.Json? && resp.body.cache == Hit) <==> !QueryForced(q) && Lookup(store, EntriesKey, now).Some?
    ensures QueryForced(q) ==> Respond(store, cfg, q, now, setNow, fetch, mock).response.ServerError?
                               || Respond(store, cfg, q, now, setNow, fetch, mock).response.body.cache == Miss
  {
  }

  /**
   * A JSON response carries one page of the listing it serves, at least one
   * page in `totalPages` for a non-zero page size and null for a zero one,
   * page 0 as an empty page, and a source only on a MISS.
   */
  lemma RoutePage(store: Store<Listing>, cfg: Config, q: Query, now: int, setNow: int, fetch: Fetch, mock: seq<Entry>)
    requires now <= setNow
    requires Respond(store, cfg, q, now, setNow, fetch, mock).response.Json?
    ensures var b := Respond(store, cfg, q, now, setNow, fetch, mock).response.body;
      var l := if b.cache == Hit then Lookup(store, EntriesKey, now).value else RouteLoaded(cfg, fetch, mock).value;
      && b.page == QueryPage(q) && b.pageSize == QueryPageSize(q, cfg)
      && b.entries == PageSlice(l.entries, b.page, b.pageSize) && b.total == l.total
      && (b.pageSize != 0 ==> b.totalPages.Some? && b.totalPages.value >= 1)
      && (b.pageSize == 0 ==> b.totalPages == None && b.entries == [])
      && (b.pageSize >= 1 && b.page >= 1 ==> |b.entries| <= b.pageSize)
      && (b.pageSize >= 1 && b.page == 0 ==> b.entries == [])
      && (b.cache == Hit ==> b.source == None)
      && (b.cache == Miss ==> (b.source == Some(Mock) <==> UsesMock(cfg)) && b.source.Some?)
  {
    var b := Respond(store, cfg, q, now, setNow, fetch, mock).response.body;
    var l := if b.cache == Hit then Lookup(store, EntriesKey, now).value else RouteLoaded(cfg, fetch, mock).value;
    if b.pageSize >= 1 && b.page >= 1 {
      PageSliceSpec(l.entries, b.page, b.pageSize);
    }
    if b.pageSize >= 1 && b.page == 0 {
      PageZeroEmpty(l.entries, b.pageSize);
    }
  }

  /**
   * With the mock fallback off and the credentials present, a failed sheet
   * read on a MISS is a 500 response whose only field is the error, and nothing
   * new is cached: the store is what the cache read left.
   */
  lemma FailedReadIsServerError(store: Store<Listing>, cfg: Config, q: Query, now: int, setNow: int,
                                message: string, mock: seq<Entry>)
    requires now <= setNow
    requires !cfg.useMock && EnvReady(cfg) && (QueryForced(q) || Lookup(store, EntriesKey, now).None?)
    ensures var a := Respond(store, cfg, q, now, setNow, FetchFailed(message), mock);
      && a.response == ServerError(500, UndefinedResultMessage)
      && a.store == (if QueryForced(q) then store else AfterGet(store, EntriesKey, now))
      && Lookup(a.store, EntriesKey, now) == Lookup(store, EntriesKey, now)
  {
  }

  /** With the mock fallback off, a MISS succeeds exactly when the sheet read succeeds. */
  lemma MissFailsIffReadFails(store: Store<Listing>, cfg: Config, q: Query, now: int, setNow: int, fetch: Fetch,
                              mock: seq<Entry>)
    requires now <= setNow
    requires !UsesMock(cfg) && (QueryForced(q) || Lookup(store, EntriesKey, now).None?)
    ensures Respond(store, cfg, q, now, setNow, fetch, mock).response.ServerError? <==> fetch.FetchFailed?
  {
  }

  /**
   * A successful MISS caches the full listing for 30 seconds from the moment
   * it is stored: an unforced request starting up to 30000 ms after that
   * (inclusive) is a HIT with the same total.
   */
  lemma RouteMissThenHit(store: Store<Listing>, cfg: Config, q: Query, now: int, setNow: int, fetch: Fetch,
                         mock: seq<Entry>, cfg2: Config, q2: Query, later: int, setLater: int, fetch2: Fetch,
                         mock2: seq<Entry>)
    requires now <= setNow && later <= setLater
    requires Respond(store, cfg, q, now, setNow, fetch, mock).response.Json?
    requires Respond(store, cfg, q, now, setNow, fetch, mock).response.body.cache == Miss
    requires !QueryForced(q2) && setNow <= later <= setNow + TtlMs
    ensures var first := Respond(store, cfg, q, now, setNow, fetch, mock);
      var second := Respond(first.store, cfg2, q2, later, setLater, fetch2, mock2);
      && second.response.Json? && second.response.body.cache == Hit
      && second.response.body.total == first.response.body.total
      && second.store == first.store
  {
  }
}
