/**
 * src/actions/cache.ts: its own copy of the cache (a `Cache` object other
 * than the one of src/lib/entries-cache.ts) and `refreshEntriesCache`.
 */
module CacheActions {
  import opened Wrappers
  import opened TtlCache
  import opened Rows

  /** The key under which the entry listing is cached. */
  const EntriesKey: string := "entries"

  /** `{ ok, cleared, error? }`. */
  datatype RefreshCacheResult = RefreshCacheResult(ok: bool, cleared: string, error: Option<string>)

  /**
   * `refreshEntriesCache`: deletes the "entries" key and reports it. The
   * catch branch is unreachable, because deleting a key cannot throw.
   */
  method RefreshEntriesCache(cache: Cache<Listing>) returns (r: RefreshCacheResult)
    modifies cache
    ensures r == RefreshCacheResult(true, EntriesKey, None)
    ensures cache.store == Cleared(old(cache.store), Some(EntriesKey))
  {
    cache.Clear(Some(EntriesKey));
    r := RefreshCacheResult(true, EntriesKey, None);
  }

  /** After a refresh, a get of "entries" misses at any time, and every other key is as it was. */
  lemma RefreshedEntriesMiss(store: Store<Listing>, now: int)
    ensures Lookup(Cleared(store, Some(EntriesKey)), EntriesKey, now) == None
    ensures forall k :: k != EntriesKey ==> (k in Cleared(store, Some(EntriesKey)) <==> k in store)
    ensures forall k :: k != EntriesKey && k in store ==> Cleared(store, Some(EntriesKey))[k] == store[k]
  {
    ClearOne(store, EntriesKey);
  }
}
