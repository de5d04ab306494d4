/** The in-memory caches of the two Express/Apollo servers: module-level
    values `{ data, timestamp }`, either one slot or one per key, that are
    served while younger than six hours and replaced wholesale on a refill.
    Time is the `Date.now()` millisecond count, passed in as `now`. */
module TtlCache {
  import opened Wrappers

  /** `CACHE_DURATION = 1000 * 60 * 60 * 6`. */
  const CacheDuration: int := 1000 * 60 * 60 * 6

  /** One `{ data, timestamp }` object; `data` is null until the first fill. */
  datatype Slot<T> = Slot(data: Option<T>, timestamp: int)

  /** `cache.data && now - cache.timestamp < CACHE_DURATION`. The data the
      servers keep are arrays, and an array is truthy even when empty. */
  predicate Fresh<T>(slot: Slot<T>, now: int) {
    slot.data.Some? && now - slot.timestamp < CacheDuration
  }

  /** What a read of the slot at `now` serves, if anything. */
  function Serve<T>(slot: Slot<T>, now: int): (r: Option<T>)
    ensures r.Some? <==> slot.data.Some? && now < slot.timestamp + CacheDuration
    ensures r.Some? ==> r == slot.data
  {
    if Fresh(slot, now) then slot.data else None
  }

  /** `cache[key] && now - cache[key].timestamp < CACHE_DURATION` over an
      object of slots keyed by `key`. */
  function ServeKey<K, T>(cache: map<K, Slot<T>>, key: K, now: int): (r: Option<T>)
    ensures r.Some? <==> key in cache && cache[key].data.Some? && now < cache[key].timestamp + CacheDuration
    ensures r.Some? ==> r == cache[key].data
  {
    if key in cache then Serve(cache[key], now) else None
  }

  /** `cache = { data, timestamp: now }`. */
  function Refill<T>(data: T, now: int): (slot: Slot<T>)
    ensures slot.data == Some(data) && slot.timestamp == now
  {
    Slot(Some(data), now)
  }

  /** A refill is served unchanged for exactly six hours: at every instant
      from the refill up to, but not including, `now + CacheDuration`. */
  lemma RefillServedForSixHours<T>(data: T, now: int, later: int)
    requires now <= later
    ensures Serve(Refill(data, now), later) == (if later < now + CacheDuration then Some(data) else None)
  {
  }

  /** Refilling one key leaves what every other key serves as it was, and
      the refilled key is served from then on for six hours. */
  lemma RefillKeyLeavesOthers<K, T>(cache: map<K, Slot<T>>, key: K, data: T, now: int, other: K, later: int)
    requires now <= later < now + CacheDuration
    ensures ServeKey(cache[key := Refill(data, now)], key, later) == Some(data)
    ensures other != key ==> ServeKey(cache[key := Refill(data, now)], other, later) == ServeKey(cache, other, later)
  {
  }
}
