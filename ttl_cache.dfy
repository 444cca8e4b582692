/**
 * The time-to-live cache of src/lib/entries-cache.ts, repeated verbatim in
 * src/actions/cache.ts: a module-level `Map` from keys to a value and its
 * expiry time. Each copy is one `Cache` object; the clock reading
 * `Date.now()` is the parameter `now`.
 */
module TtlCache {
  import opened Wrappers

  /** `{ value, expiresAt }`. */
  datatype Item<V> = Item(value: V, expiresAt: int)

  type Store<V> = map<string, Item<V>>

  /** What `cacheGet(key)` returns at time `now`: the value, unless it is absent or has expired. */
  function Lookup<V>(store: Store<V>, key: string, now: int): (r: Option<V>)
    ensures r.Some? ==> key in store && now <= store[key].expiresAt && r.value == store[key].value
    ensures r.None? ==> key !in store || now > store[key].expiresAt
  {
    if key !in store || now > store[key].expiresAt then None else Some(store[key].value)
  }

  /** The store after `cacheGet(key)` at time `now`: an expired item is deleted. */
  function AfterGet<V>(store: Store<V>, key: string, now: int): Store<V> {
    if key in store && now > store[key].expiresAt then store - {key} else store
  }

  /** The store after `cacheSet(key, value, ttlMs)` at time `now`. */
  function Put<V>(store: Store<V>, key: string, value: V, ttlMs: int, now: int): Store<V> {
    store[key := Item(value, now + ttlMs)]
  }

  /** The store after `cacheClear(key)`; `None` is a call without argument. */
  function Cleared<V>(store: Store<V>, key: Option<string>): Store<V> {
    if key.Some? && key.value != "" then store - {key.value} else map[]
  }

  class Cache<V> {
    var store: Store<V>

    constructor()
      ensures store == map[]
    {
      store := map[];
    }

    /** `cacheGet`. */
    method Get(key: string, now: int) returns (r: Option<V>)
      modifies this
      ensures r == Lookup(old(store), key, now)
      ensures store == AfterGet(old(store), key, now)
    {
      if key !in store {
        return None;
      }
      var item := store[key];
      if now > item.expiresAt {
        store := store - {key};
        return None;
      }
      r := Some(item.value);
    }

    /** `cacheSet`. */
    method Set(key: string, value: V, ttlMs: int, now: int)
      modifies this
      ensures store == Put(old(store), key, value, ttlMs, now)
    {
      store := store[key := Item(value, now + ttlMs)];
    }

    /** `cacheClear`: one key when it is a non-empty string, otherwise everything. */
    method Clear(key: Option<string>)
      modifies this
      ensures store == Cleared(old(store), key)
    {
      if key.Some? && key.value != "" {
        store := store - {key.value};
      } else {
        store := map[];
      }
    }
  }

  /** A get finds a value exactly when its key is present and not past its expiry. */
  lemma LookupSpec<V>(store: Store<V>, key: string, now: int)
    ensures Lookup(store, key, now).Some? <==> key in store && now <= store[key].expiresAt
    ensures Lookup(store, key, now).Some? ==> Lookup(store, key, now).value == store[key].value
  {
  }

  /** A get of an absent key returns null and leaves the store as it was. */
  lemma GetAbsent<V>(store: Store<V>, key: string, now: int)
    requires key !in store
    ensures Lookup(store, key, now) == None && AfterGet(store, key, now) == store
  {
  }

  /**
   * After a set at time `now`, a get up to and including `now + ttlMs`
   * returns the value and changes nothing; later it returns null and
   * leaves the store as it was before the set, without that key.
   */
  lemma SetThenGet<V>(store: Store<V>, key: string, value: V, ttlMs: int, now: int, later: int)
    ensures var s := Put(store, key, value, ttlMs, now);
      && (later <= now + ttlMs ==> Lookup(s, key, later) == Some(value) && AfterGet(s, key, later) == s)
      && (later > now + ttlMs ==> Lookup(s, key, later) == None && AfterGet(s, key, later) == store - {key})
  {
    var s := Put(store, key, value, ttlMs, now);
    if later > now + ttlMs {
      assert s - {key} == store - {key};
    }
  }

  /** An expired get removes its own key and no other. */
  lemma ExpiredGetRemovesOnlyKey<V>(store: Store<V>, key: string, now: int)
    requires key in store && now > store[key].expiresAt
    ensures Lookup(store, key, now) == None
    ensures key !in AfterGet(store, key, now)
    ensures forall k :: k != key ==> (k in AfterGet(store, key, now) <==> k in store)
    ensures forall k :: k != key && k in store ==> AfterGet(store, key, now)[k] == store[k]
  {
  }

  /** A get never changes the value or expiry stored under any key it leaves in place. */
  lemma GetKeepsItems<V>(store: Store<V>, key: string, now: int)
    ensures forall k :: k in AfterGet(store, key, now) ==> k in store && AfterGet(store, key, now)[k] == store[k]
  {
  }

  /** A set overwrites unconditionally: the latest value and expiry win. */
  lemma SetOverwrites<V>(store: Store<V>, key: string, v1: V, t1: int, n1: int, v2: V, t2: int, n2: int)
    ensures Put(Put(store, key, v1, t1, n1), key, v2, t2, n2) == Put(store, key, v2, t2, n2)
  {
  }

  /** A set changes no other key. */
  lemma SetKeepsOthers<V>(store: Store<V>, key: string, value: V, ttlMs: int, now: int)
    ensures forall k :: k != key ==> (k in Put(store, key, value, ttlMs, now) <==> k in store)
    ensures forall k :: k != key && k in store ==> Put(store, key, value, ttlMs, now)[k] == store[k]
  {
  }

  /** Clearing a non-empty key removes that key only. */
  lemma ClearOne<V>(store: Store<V>, key: string)
    requires key != ""
    ensures key !in Cleared(store, Some(key))
    ensures forall k :: k != key ==> (k in Cleared(store, Some(key)) <==> k in store)
    ensures forall k :: k != key && k in store ==> Cleared(store, Some(key))[k] == store[k]
  {
  }

  /** `cacheClear()` and `cacheClear("")` both empty the store, because "" is falsy. */
  lemma ClearAll<V>(store: Store<V>)
    ensures Cleared(store, None) == map[] && Cleared(store, Some("")) == map[]
  {
  }
}
