/**
 * `getEntries` of src/actions/entries.ts: one page of the registrations,
 * served from the server-action cache when it holds a live listing and
 * otherwise loaded (from the mock list or from the sheet), cached for
 * 30 seconds and then sliced.
 */
module EntriesAction {
  import opened Wrappers
  import opened AppConfig
  import opened Rows
  import opened TtlCache
  import opened Paging
  import opened CacheActions
  import SheetActions

  const TtlMs: int := 30000
  const LoadFailedMessage: string := "Failed to load entries"

  datatype CacheStatus = Hit | Miss
  datatype Source = Mock | Sheets

  /** `{ page?, pageSize?, revalidate? }`. */
  datatype GetEntriesParams = GetEntriesParams(page: Option<int>, pageSize: Option<int>, revalidate: Option<bool>)

  /** `{ entries, total, page, pageSize, totalPages, cache, source?, error? }`. */
  datatype GetEntriesResult = GetEntriesResult(
    entries: seq<Entry>,
    total: int,
    page: int,
    pageSize: int,
    totalPages: int,
    cache: CacheStatus,
    source: Option<Source>,
    error: Option<string>)

  /** JavaScript `n || d` on an optional number: a missing value or 0 falls through to `d`. */
  function OrNumber(n: Option<int>, d: int): int {
    if n.Some? && n.value != 0 then n.value else d
  }

  /** `params.page || 1`. */
  function PageOf(params: GetEntriesParams): int {
    OrNumber(params.page, 1)
  }

  /** `params.pageSize || config.ui.pageSize || 50`. */
  function PageSizeOf(params: GetEntriesParams, cfg: Config): int {
    OrNumber(params.pageSize, OrNumber(Some(cfg.pageSize), DefaultPageSize))
  }

  /** The page and the page size are never 0, and fall back to 1 and to the configured size, then 50. */
  lemma Defaults(params: GetEntriesParams, cfg: Config)
    ensures PageOf(params) != 0 && PageSizeOf(params, cfg) != 0
    ensures params.page.None? || params.page == Some(0) ==> PageOf(params) == 1
    ensures params.pageSize.None? ==> PageSizeOf(params, cfg) == (if cfg.pageSize != 0 then cfg.pageSize else 50)
  {
  }

  predicate Forced(params: GetEntriesParams) {
    params.revalidate == Some(true)
  }

  /** `config.google.useMock || !isEnvReady()`. */
  predicate UsesMock(cfg: Config) {
    cfg.useMock || !EnvReady(cfg)
  }

  /** The mock list with `rowNumber` set to `idx + 2`, as the sheet numbers its rows. */
  function Numbered(mock: seq<Entry>): seq<Entry> {
    seq(|mock|, i requires 0 <= i < |mock| => mock[i].(rowNumber := i + 2))
  }

  /** The listing a MISS loads: the numbered mock list, or what the sheet reader returns. */
  function Loaded(cfg: Config, fetch: Fetch, mock: seq<Entry>): Listing {
    if UsesMock(cfg) then Listing(Numbered(mock), |mock|) else SheetActions.ReadEntries(cfg, fetch)
  }

  /** Whatever the source, a loaded listing counts its entries and numbers them from row 2. */
  lemma LoadedNumbering(cfg: Config, fetch: Fetch, mock: seq<Entry>)
    ensures var l := Loaded(cfg, fetch, mock);
      && l.total == |l.entries|
      && (forall i :: 0 <= i < |l.entries| ==> l.entries[i].rowNumber == i + 2)
      && (UsesMock(cfg) ==> |l.entries| == |mock|
                            && forall i :: 0 <= i < |mock| ==> l.entries[i] == mock[i].(rowNumber := i + 2))
  {
  }

  /** A result and the cache store after the call. */
  datatype Served = Served(result: GetEntriesResult, store: Store<Listing>)

  /**
   * What `getEntries` returns and leaves in the cache, as a function of the
   * store it finds. `now` is the clock when the cache is read and `setNow`
   * the clock when a loaded listing is stored, after the awaited sheet read.
   */
  function Serve(store: Store<Listing>, cfg: Config, params: GetEntriesParams, now: int, setNow: int, fetch: Fetch,
                 mock: seq<Entry>): (s: Served)
    requires now <= setNow
    ensures s.result.totalPages >= 1 && s.result.error.None?
    ensures s.result.cache == Hit <==> s.result.source.None?
    ensures EntriesKey in s.store ==> s.result.cache == Hit || s.store[EntriesKey].expiresAt == setNow + TtlMs
    ensures forall k :: k != EntriesKey ==> (k in s.store <==> k in store) && (k in store ==> s.store[k] == store[k])
  {
    var page, ps := PageOf(params), PageSizeOf(params, cfg);
    var cached := if Forced(params) then None else Lookup(store, EntriesKey, now);
    var kept := if Forced(params) then store else AfterGet(store, EntriesKey, now);
    match cached
    case Some(l) =>
      Served(GetEntriesResult(PageSlice(l.entries, page, ps), l.total, page, ps, TotalPages(l.total, ps), Hit, None, None),
             kept)
    case None =>
      var l := Loaded(cfg, fetch, mock);
      Served(GetEntriesResult(PageSlice(l.entries, page, ps), l.total, page, ps, TotalPages(l.total, ps), Miss,
                              Some(if UsesMock(cfg) then Mock else Sheets), None),
             Put(kept, EntriesKey, l, TtlMs, setNow))
  }

  /**
   * `getEntries`. `fetch` is what the sheet read would return and `mock` the
   * mock list; `cache` is the store of src/actions/cache.ts. `now` and
   * `setNow` are the two readings of `Date.now()`, by `cacheGet` and by `cacheSet`.
   */
  method GetEntries(cache: Cache<Listing>, cfg: Config, params: GetEntriesParams, now: int, setNow: int,
                    fetch: Fetch, mock: seq<Entry>) returns (r: GetEntriesResult)
    requires now <= setNow
    modifies cache
    ensures Served(r, cache.store) == Serve(old(cache.store), cfg, params, now, setNow, fetch, mock)
  {
    var page := if params.page.Some? && params.page.value != 0 then params.page.value else 1;
    var pageSize := if params.pageSize.Some? && params.pageSize.value != 0 then params.pageSize.value
                    else if cfg.pageSize != 0 then cfg.pageSize else DefaultPageSize;
    var force := params.revalidate == Some(true);
    var useMock := cfg.useMock || !EnvReady(cfg);
    assert page == PageOf(params) && pageSize == PageSizeOf(params, cfg) && force == Forced(params);

    var cached: Option<Listing> := None;
    if !force {
      cached := cache.Get(EntriesKey, now);
    }
    if cached.Some? {
      var c := cached.value;
      r := GetEntriesResult(PageSlice(c.entries, page, pageSize), c.total, page, pageSize,
                            TotalPages(c.total, pageSize), Hit, None, None);
      return;
    }

    var entries: seq<Entry> := [];
    var total := 0;
    if useMock {
      entries := Numbered(mock);
      total := |entries|;
    } else {
      var res := SheetActions.ReadEntries(cfg, fetch);
      entries := res.entries;
      total := res.total;
    }
    cache.Set(EntriesKey, Listing(entries, total), TtlMs, setNow);
    r := GetEntriesResult(PageSlice(entries, page, pageSize), total, page, pageSize,
                          TotalPages(total, pageSize), Miss, Some(if useMock then Mock else Sheets), None);
  }

  /** A call is a HIT exactly when it is not forced and the cache holds a live listing; a forced call is a MISS. */
  lemma HitIffCached(store: Store<Listing>, cfg: Config, params: GetEntriesParams, now: int, setNow: int,
                     fetch: Fetch, mock: seq<Entry>)
    requires now <= setNow
    ensures Serve(store, cfg, params, now, setNow, fetch, mock).result.cache == Hit
            <==> !Forced(params) && Lookup(store, EntriesKey, now).Some?
    ensures Forced(params) ==> Serve(store, cfg, params, now, setNow, fetch, mock).result.cache == Miss
  {
  }

  /**
   * The result is one page of the listing it serves (the cached one on a
   * HIT, the loaded one on a MISS): at most `pageSize` entries for a
   * positive page size, at least one page, a source only on a MISS, and
   * "mock" exactly when the mock list was used.
   */
  lemma ServedPage(store: Store<Listing>, cfg: Config, params: GetEntriesParams, now: int, setNow: int,
                   fetch: Fetch, mock: seq<Entry>)
    requires now <= setNow
    ensures var r := Serve(store, cfg, params, now, setNow, fetch, mock).result;
      var l := if r.cache == Hit then Lookup(store, EntriesKey, now).value else Loaded(cfg, fetch, mock);
      && r.page == PageOf(params) && r.pageSize == PageSizeOf(params, cfg)
      && r.entries == PageSlice(l.entries, r.page, r.pageSize)
      && r.total == l.total
      && r.totalPages >= 1
      && (r.page >= 1 && r.pageSize >= 1 ==> |r.entries| <= r.pageSize)
      && (r.cache == Hit ==> r.source == None)
      && (r.cache == Miss ==> (r.source == Some(Mock) <==> UsesMock(cfg)) && r.source.Some?)
      && r.error == None
  {
    var r := Serve(store, cfg, params, now, setNow, fetch, mock).result;
    var l := if r.cache == Hit then Lookup(store, EntriesKey, now).value else Loaded(cfg, fetch, mock);
    if r.page >= 1 && r.pageSize >= 1 {
      PageSliceSpec(l.entries, r.page, r.pageSize);
    }
  }

  /**
   * Every MISS caches the full listing for 30 seconds from the moment it is
   * stored: an unforced call starting up to 30000 ms after that (inclusive)
   * is a HIT serving that same listing.
   */
  lemma MissThenHit(store: Store<Listing>, cfg: Config, params: GetEntriesParams, now: int, setNow: int,
                    fetch: Fetch, mock: seq<Entry>, cfg2: Config, params2: GetEntriesParams, later: int,
                    setLater: int, fetch2: Fetch, mock2: seq<Entry>)
    requires now <= setNow && later <= setLater
    requires Serve(store, cfg, params, now, setNow, fetch, mock).result.cache == Miss
    requires !Forced(params2) && setNow <= later <= setNow + TtlMs
    ensures var first := Serve(store, cfg, params, now, setNow, fetch, mock);
      var second := Serve(first.store, cfg2, params2, later, setLater, fetch2, mock2);
      var l := Loaded(cfg, fetch, mock);
      && second.result.cache == Hit
      && second.result.total == first.result.total
      && second.result.entries == PageSlice(l.entries, PageOf(params2), PageSizeOf(params2, cfg2))
      && second.store == first.store
  {
  }

  /**
   * A failing sheet read is not an error here: the server-action reader
   * answers it with the empty listing, which is served and cached like any
   * other, for 30000 ms from the moment it is stored.
   */
  lemma FailedReadServedEmpty(store: Store<Listing>, cfg: Config, params: GetEntriesParams, now: int,
                              setNow: int, message: string, mock: seq<Entry>)
    requires now <= setNow
    requires !UsesMock(cfg) && (Forced(params) || Lookup(store, EntriesKey, now).None?)
    ensures var s := Serve(store, cfg, params, now, setNow, FetchFailed(message), mock);
      && s.result.entries == [] && s.result.total == 0 && s.result.totalPages == 1
      && s.result.cache == Miss && s.result.source == Some(Sheets) && s.result.error == None
      && EntriesKey in s.store && s.store[EntriesKey] == Item(Listing([], 0), setNow + TtlMs)
  {
    var ps := PageSizeOf(params, cfg);
    assert TotalPages(0, ps) == 1 by {
      if ps < 0 {
        NegativePageSizeOnePage(0, ps);
      }
    }
  }

  /**
   * The catch block's result: no entries, total 0, `totalPages` 0, a MISS
   * and the error text. Nothing in the body can throw, so `GetEntries`
   * never returns it.
   */
  function ErrorResult(params: GetEntriesParams, cfg: Config, message: string): (r: GetEntriesResult)
    ensures r.entries == [] && r.total == 0 && r.totalPages == 0 && r.cache == Miss && r.source == None
    ensures r.page == PageOf(params) && r.pageSize == PageSizeOf(params, cfg)
    ensures r.error.Some? && r.error.value != ""
  {
    GetEntriesResult([], 0, PageOf(params), PageSizeOf(params, cfg), 0, Miss, None,
                     Some(if message != "" then message else LoadFailedMessage))
  }
}
