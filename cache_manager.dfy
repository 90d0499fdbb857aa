/**
 * `ci_engine/cache_manager.py`: the flat cache. Each entry is a file named
 * after its key inside the cache directory, holding a pickled value; here
 * the directory is a map from key to value and a flag that says whether
 * the directory exists yet. Pickling round-trips, so a loaded value equals
 * the saved one.
 */
module CacheManager {
  import opened Wrappers

  class CacheStore<V> {
    /** The files of the cache directory, by name. */
    var entries: map<string, V>
    /** Whether the cache directory has been created. */
    var created: bool

    /** Without a directory there are no entry files. */
    ghost predicate Valid()
      reads this
    {
      !created ==> entries == map[]
    }

    /** A store whose directory does not exist yet. */
    constructor ()
      ensures Valid() && !created && entries == map[]
    {
      entries := map[];
      created := false;
    }

    /** `load_cache(cache_key)`: the stored value, or None when there is no file for the key. */
    method Load(key: string) returns (r: Option<V>)
      requires Valid()
      ensures r.Some? <==> key in entries
      ensures r.Some? ==> r.value == entries[key]
      ensures !created ==> r == None
    {
      if key in entries {
        r := Some(entries[key]);
      } else {
        r := None;
      }
    }

    /**
     * `save_cache(cache_key, data)`: creates the directory if needed (an
     * existing one is fine) and writes the entry, replacing any earlier one.
     */
    method Save(key: string, data: V)
      modifies this
      ensures Valid() && created
      ensures entries == old(entries)[key := data]
      ensures forall k :: k != key ==> (k in entries <==> k in old(entries))
      ensures forall k :: k != key && k in entries ==> entries[k] == old(entries)[k]
    {
      created := true;
      entries := entries[key := data];
    }
  }

  /** A saved value is loaded back unchanged, and loading leaves the store as it was. */
  method SaveThenLoad<V>(store: CacheStore<V>, key: string, data: V) returns (r: Option<V>)
    modifies store
    ensures store.Valid()
    ensures r == Some(data)
    ensures store.entries == old(store.entries)[key := data]
  {
    store.Save(key, data);
    r := store.Load(key);
  }

  /** A second save under the same key replaces the first. */
  method SaveTwiceThenLoad<V>(store: CacheStore<V>, key: string, first: V, second: V) returns (r: Option<V>)
    modifies store
    ensures r == Some(second)
    ensures store.created
  {
    store.Save(key, first);
    store.Save(key, second);
    r := store.Load(key);
  }

  /** In a fresh store, nothing has been saved, so every load misses. */
  method LoadFromFreshStore<V>(key: string) returns (r: Option<V>)
    ensures r == None
  {
    var store := new CacheStore<V>();
    r := store.Load(key);
  }
}
