/**
 * The in-memory caches with a 60-second time to live: the file-index cache of
 * `services/llm/cache.py` and `services/document/cache/index_cache.py`, and
 * the folder cache of `services/utils/cache.py`. The clock is a parameter,
 * and so is the outcome of the bucket load a reload performs.
 */
module TtlCache {
  import opened Wrappers

  /** `CACHE_TTL`, in seconds. */
  const Ttl: real := 60.0

  /** The cache dict: `data` (`None` before the first load), `timestamp`, `is_loading`. */
  datatype Cache<T> = Cache(data: Option<seq<T>>, timestamp: real, loading: bool)

  /** The module-level initial value. */
  function Initial<T>(): (c: Cache<T>)
    ensures c.data.None? && !c.loading
  {
    Cache(None, 0.0, false)
  }

  /** `_is_cache_valid()` / `_is_folder_cache_valid()`. */
  predicate IsValid<T>(c: Cache<T>, now: real) {
    c.data.Some? && now - c.timestamp < Ttl
  }

  /** Python's `data or []`: the cached list, or an empty one when there is none. */
  function DataOrEmpty<T>(c: Cache<T>): (r: seq<T>)
    ensures c.data.Some? ==> r == c.data.value
    ensures c.data.None? ==> r == []
  {
    match c.data
    case Some(xs) => xs
    case None => []
  }

  /** A cache is valid from the moment it is filled until the time to live runs out. */
  lemma ValidityWindow<T>(c: Cache<T>, now: real)
    requires c.data.Some?
    ensures IsValid(c, now) <==> now < c.timestamp + Ttl
  {
  }

  /**
   * `_sync_reload_cache()` (and `_sync_reload_folder_cache()`): a reload already
   * in progress returns what is cached without touching the cache; otherwise
   * the load's result is stored with the current time, a failed load returns
   * `[]` and leaves the data alone, and the loading flag ends up cleared.
   */
  function SyncReload<T>(c: Cache<T>, now: real, load: Result<seq<T>>): (r: (Cache<T>, seq<T>))
    ensures c.loading ==> r.0 == c && r.1 == DataOrEmpty(c)
    ensures !c.loading ==> !r.0.loading
    ensures !c.loading && load.Ok? ==> r.0.data == Some(load.value) && r.1 == load.value
    ensures !c.loading && load.Ok? ==> IsValid(r.0, now)
    ensures !c.loading && load.Err? ==> r.1 == [] && r.0.data == c.data && r.0.timestamp == c.timestamp
  {
    if c.loading then (c, DataOrEmpty(c))
    else
      match load
      case Ok(xs) => (Cache(Some(xs), now, false), xs)
      case Err(_) => (c.(loading := false), [])
  }

  /**
   * `_async_reload_cache()`, run to completion: like the synchronous reload but
   * it returns nothing; a reload already in progress makes it a no-op.
   */
  function AsyncReload<T>(c: Cache<T>, now: real, load: Result<seq<T>>): (r: Cache<T>)
    ensures c.loading ==> r == c
    ensures !c.loading ==> !r.loading
    ensures !c.loading && load.Ok? ==> r.data == Some(load.value) && IsValid(r, now)
    ensures !c.loading && load.Err? ==> r.data == c.data && r.timestamp == c.timestamp
  {
    SyncReload(c, now, load).0
  }

  /** Which branch `get_available_indexes()` takes. */
  datatype Decision = Fresh | Stale | Empty

  function Decide<T>(c: Cache<T>, now: real): (d: Decision)
    ensures d == Fresh <==> IsValid(c, now)
    ensures d == Stale <==> c.data.Some? && !IsValid(c, now)
    ensures d == Empty <==> c.data.None?
  {
    if IsValid(c, now) then Fresh
    else if c.data.Some? then Stale
    else Empty
  }

  /**
   * What a call of `get_available_indexes()` leaves: the cache, the list
   * returned, and whether a background reload was started.
   */
  datatype Served<T> = Served(cache: Cache<T>, value: seq<T>, backgroundReload: bool)

  /**
   * `get_available_indexes()` of `services/llm/cache.py`: valid data is
   * returned; expired data is returned as it is while a background reload is
   * started; with no data the bucket is loaded in line (without the loading
   * flag) and a failed load returns `[]`.
   */
  function ServeInline<T>(c: Cache<T>, now: real, load: Result<seq<T>>): (r: Served<T>)
    ensures c.data.Some? ==> r.cache == c && r.value == c.data.value
    ensures r.backgroundReload <==> Decide(c, now) == Stale
    ensures c.data.None? && load.Ok? ==> r.value == load.value && r.cache == Cache(Some(load.value), now, c.loading)
    ensures c.data.None? && load.Err? ==> r.value == [] && r.cache == c
  {
    match Decide(c, now)
    case Fresh => Served(c, c.data.value, false)
    case Stale => Served(c, c.data.value, true)
    case Empty =>
      match load
      case Ok(xs) => Served(c.(data := Some(xs), timestamp := now), xs, false)
      case Err(_) => Served(c, [], false)
  }

  /**
   * `get_available_indexes()` of `services/document/cache/index_cache.py`:
   * the same three branches, but the empty cache goes through the guarded
   * synchronous reload.
   */
  function ServeGuarded<T>(c: Cache<T>, now: real, load: Result<seq<T>>): (r: Served<T>)
    ensures c.data.Some? ==> r.cache == c && r.value == c.data.value
    ensures r.backgroundReload <==> Decide(c, now) == Stale
    ensures c.data.None? ==> (r.cache, r.value) == SyncReload(c, now, load)
  {
    match Decide(c, now)
    case Fresh => Served(c, c.data.value, false)
    case Stale => Served(c, c.data.value, true)
    case Empty =>
      var (c', xs) := SyncReload(c, now, load);
      Served(c', xs, false)
  }

  /**
   * When no reload is in progress the two versions serve the same list and
   * leave the same cache.
   */
  lemma ServeVersionsAgree<T>(c: Cache<T>, now: real, load: Result<seq<T>>)
    requires !c.loading
    ensures ServeInline(c, now, load) == ServeGuarded(c, now, load)
  {
  }

  /**
   * A second call within the time to live of a first call that loaded the
   * bucket serves the same list from the cache, whatever the bucket holds by
   * then, and starts no reload.
   */
  lemma ServedTwice<T>(c: Cache<T>, t1: real, t2: real, load1: Result<seq<T>>, load2: Result<seq<T>>)
    requires c.data.None? && !c.loading && load1.Ok?
    requires t1 <= t2 < t1 + Ttl
    ensures var first := ServeGuarded(c, t1, load1);
      var second := ServeGuarded(first.cache, t2, load2);
      second.value == first.value == load1.value && !second.backgroundReload && second.cache == first.cache
  {
    var first := ServeGuarded(c, t1, load1);
    assert first.cache == Cache(Some(load1.value), t1, false);
    assert IsValid(first.cache, t2);
  }

  /**
   * `get_folders()`: valid folder data is returned as it is; otherwise the
   * folder cache is rebuilt through the guarded synchronous reload, where
   * `load` is the folder list the current items and empty folders give, or
   * the error that building it raised.
   */
  function GetFolders<T>(c: Cache<T>, now: real, load: Result<seq<T>>): (r: (Cache<T>, seq<T>))
    ensures IsValid(c, now) ==> r == (c, c.data.value)
    ensures !IsValid(c, now) && !c.loading && load.Ok? ==> r.1 == load.value && r.0 == Cache(Some(load.value), now, false)
    ensures !IsValid(c, now) && !c.loading && load.Err? ==> r.1 == [] && r.0 == c.(loading := false)
    ensures !IsValid(c, now) && c.loading ==> r == (c, DataOrEmpty(c))
  {
    if !IsValid(c, now) || c.data.None? then SyncReload(c, now, load)
    else (c, c.data.value)
  }

  /**
   * Folders rebuilt at `t1` are served again from the cache by a call within
   * the time to live, whatever the bucket gives by then.
   */
  lemma FoldersServedTwice<T>(c: Cache<T>, t1: real, t2: real, load1: Result<seq<T>>, load2: Result<seq<T>>)
    requires !IsValid(c, t1) && !c.loading && load1.Ok?
    requires t1 <= t2 < t1 + Ttl
    ensures var first := GetFolders(c, t1, load1);
            GetFolders(first.0, t2, load2) == first && first.1 == load1.value
  {
    var first := GetFolders(c, t1, load1);
    assert IsValid(first.0, t2);
  }
}
