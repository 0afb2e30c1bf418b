/**
 * The cached dataset: the stringified records under one key, the time of the
 * write (milliseconds, as decimal text) under another. A read is a hit while
 * the entry is younger than thirty minutes. The clock is a parameter.
 */
module Cache {
  import opened Wrappers
  import Numbers
  import opened Records
  import Json
  import opened Storage

  const CACHE_KEY := "webapp_database"
  const CACHE_TIMESTAMP_KEY := "webapp_database_timestamp"
  const CACHE_DURATION_MS := 30 * 60 * 1000

  /**
   * `getCachedDatabase()` on a store content at time `now`: both entries must
   * be present and non-empty, the timestamp must parse, the age must be below
   * the limit, and the data must parse; otherwise null.
   */
  function CachedIn(items: map<string, string>, now: int): (r: Option<seq<Record>>)
    ensures r.Some? ==> CACHE_KEY in items && CACHE_TIMESTAMP_KEY in items
    ensures r.Some? ==> exists ts :: Numbers.ParseInt(items[CACHE_TIMESTAMP_KEY]) == Some(ts) && now - ts < CACHE_DURATION_MS
    ensures r.Some? ==> Json.DecodeDataset(items[CACHE_KEY]) == r
  {
    if CACHE_KEY in items && CACHE_TIMESTAMP_KEY in items
      && items[CACHE_KEY] != "" && items[CACHE_TIMESTAMP_KEY] != ""
    then
      match Numbers.ParseInt(items[CACHE_TIMESTAMP_KEY])
      case None => None
      case Some(ts) => if now - ts < CACHE_DURATION_MS then Json.DecodeDataset(items[CACHE_KEY]) else None
    else None
  }

  /** The store content after `setCachedDatabase(data)` at time `now`. */
  function WrittenCache(items: map<string, string>, data: seq<Record>, now: int): map<string, string> {
    items[CACHE_KEY := Json.EncodeDataset(data)][CACHE_TIMESTAMP_KEY := Numbers.IntToString(now)]
  }

  method GetCachedDatabase(store: LocalStorage, now: int) returns (r: Option<seq<Record>>)
    ensures r == CachedIn(store.items, now)
  {
    var cachedData := store.GetItem(CACHE_KEY);
    var cachedTimestamp := store.GetItem(CACHE_TIMESTAMP_KEY);
    r := None;
    if cachedData.Some? && cachedData.value != "" && cachedTimestamp.Some? && cachedTimestamp.value != "" {
      var ts := Numbers.ParseInt(cachedTimestamp.value);
      if ts.Some? && now - ts.value < CACHE_DURATION_MS {
        r := Json.DecodeDataset(cachedData.value);
      }
    }
  }

  method SetCachedDatabase(store: LocalStorage, data: seq<Record>, now: int)
    modifies store
    ensures store.items == WrittenCache(old(store.items), data, now)
  {
    store.SetItem(CACHE_KEY, Json.EncodeDataset(data));
    store.SetItem(CACHE_TIMESTAMP_KEY, Numbers.IntToString(now));
  }

  /** Without either entry every read misses. */
  lemma MissWithoutEntries(items: map<string, string>, now: int)
    requires CACHE_KEY !in items || CACHE_TIMESTAMP_KEY !in items
    ensures CachedIn(items, now) == None
  {
  }

  /**
   * A write at `written` read back at `now` gives the written records while
   * `now - written` is below thirty minutes, and a miss from then on.
   */
  lemma ReadAfterWrite(items: map<string, string>, data: seq<Record>, written: int, now: int)
    ensures CachedIn(WrittenCache(items, data, written), now)
            == if now - written < CACHE_DURATION_MS then Some(data) else None
  {
    Numbers.ParseIntOfIntToString(written);
    Json.DecodeEncodeDataset(data);
  }

  /** Writing the cache touches no key but its own two. */
  lemma WriteFrame(items: map<string, string>, data: seq<Record>, now: int, key: string)
    requires key != CACHE_KEY && key != CACHE_TIMESTAMP_KEY
    ensures Lookup(WrittenCache(items, data, now), key) == Lookup(items, key)
  {
  }
}
