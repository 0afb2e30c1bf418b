/** `window.localStorage`: text values under text keys, shared by the favorites and the cache. */
module Storage {
  import opened Wrappers

  /** What `getItem(key)` returns for a given store content: null when the key is absent. */
  function Lookup(items: map<string, string>, key: string): Option<string> {
    if key in items then Some(items[key]) else None
  }

  class LocalStorage {
    var items: map<string, string>

    constructor (initial: map<string, string>)
      ensures items == initial
    {
      items := initial;
    }

    method GetItem(key: string) returns (v: Option<string>)
      ensures v == Lookup(items, key)
    {
      if key in items {
        v := Some(items[key]);
      } else {
        v := None;
      }
    }

    /** `setItem(key, value)`: overwrites the one key and nothing else. */
    method SetItem(key: string, value: string)
      modifies this
      ensures items == old(items)[key := value]
    {
      items := items[key := value];
    }
  }
}
