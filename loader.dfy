/**
 * The one decision `loadDatabase` makes before any network traffic: refuse a
 * missing or non-HTTPS endpoint, use a cache hit, or otherwise fetch.
 */
module Loader {
  import opened Wrappers
  import opened Records
  import Strings
  import Cache
  import opened Storage

  datatype LoadStep = ConfigError | FromCache(data: seq<Record>) | Fetch

  function PlanLoad(apiUrl: string, cached: Option<seq<Record>>): LoadStep {
    if apiUrl == "" || !Strings.StartsWith(apiUrl, "https://") then ConfigError
    else if cached.Some? then FromCache(cached.value)
    else Fetch
  }

  /** The beginning of `loadDatabase`: the endpoint check, then the cache read. */
  method PlanDatabaseLoad(store: LocalStorage, apiUrl: string, now: int) returns (step: LoadStep)
    ensures step == PlanLoad(apiUrl, Cache.CachedIn(store.items, now))
  {
    if apiUrl == "" || !Strings.StartsWith(apiUrl, "https://") {
      return ConfigError;
    }
    var cached := Cache.GetCachedDatabase(store, now);
    step := PlanLoad(apiUrl, cached);
  }

  /**
   * With a valid endpoint the network is used exactly when the cache misses;
   * a hit, even an empty cached list, is used as it is.
   */
  lemma FetchOnlyOnMiss(apiUrl: string, cached: Option<seq<Record>>)
    requires Strings.StartsWith(apiUrl, "https://")
    ensures PlanLoad(apiUrl, cached) == Fetch <==> cached.None?
    ensures cached.Some? ==> PlanLoad(apiUrl, cached) == FromCache(cached.value)
  {
  }

  /** A fresh write is served from the cache until thirty minutes have passed. */
  lemma NoFetchWithinTtl(items: map<string, string>, data: seq<Record>, written: int, now: int, apiUrl: string)
    requires Strings.StartsWith(apiUrl, "https://")
    ensures PlanLoad(apiUrl, Cache.CachedIn(Cache.WrittenCache(items, data, written), now))
            == if now - written < Cache.CACHE_DURATION_MS then FromCache(data) else Fetch
  {
    Cache.ReadAfterWrite(items, data, written, now);
  }
}
