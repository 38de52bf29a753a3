/**
 * The expiring key/value map of tornado_gallery/cache.py.
 *
 * Every stored value carries an expiry instant. A lookup always stores
 * the entry again with expiry `now + duration` (a sliding time-to-live),
 * iteration and length only count entries whose expiry lies after `now`,
 * and expired entries stay in the map until `purge` removes them.
 * The clock is the parameter `now`; the abstract `_fetch` of a subclass is
 * the parameter `fetch` of `Get`.
 */
module ExpiringCache {
  import opened Wrappers

  /** One stored value and the instant after which it counts as expired. */
  datatype Entry<V> = Entry(expiry: int, value: V)

  /** The keys iteration yields at `now`: those whose expiry is strictly later. */
  function Live<K, V>(m: map<K, Entry<V>>, now: int): set<K>
  {
    set k | k in m && m[k].expiry > now
  }

  /** What is left after purging at `now`: entries whose expiry is not before `now`. */
  function Unexpired<K, V>(m: map<K, Entry<V>>, now: int): map<K, Entry<V>>
  {
    map k | k in m && m[k].expiry >= now :: m[k]
  }

  /**
   * The purge loop shared by `Cache.purge` and `MetadataCache.purge`: walk
   * a snapshot of the keys and pop every entry whose expiry is before `now`.
   */
  method PurgeExpired<K, V>(m: map<K, Entry<V>>, now: int) returns (r: map<K, Entry<V>>)
    ensures r == Unexpired(m, now)
  {
    r := m;
    var pending := m.Keys;
    while pending != {}
      invariant pending <= m.Keys && r.Keys <= m.Keys
      invariant forall k :: k in r ==> r[k] == m[k]
      invariant forall k :: k in pending ==> k in r
      invariant forall k :: k in m && k !in pending ==> (k in r <==> m[k].expiry >= now)
      decreases pending
    {
      var k :| k in pending;
      if r[k].expiry < now {
        r := r - {k};
      }
      pending := pending - {k};
    }
  }

  /** Purging twice at the same instant changes nothing the second time. */
  lemma PurgeIdempotent<K, V>(m: map<K, Entry<V>>, now: int)
    ensures Unexpired(Unexpired(m, now), now) == Unexpired(m, now)
  {
  }

  /**
   * Purging never changes what iteration sees: the live keys are the same
   * before and after, and every survivor keeps its entry.
   */
  lemma PurgeKeepsLive<K, V>(m: map<K, Entry<V>>, now: int)
    ensures Live(Unexpired(m, now), now) == Live(m, now)
    ensures forall k :: k in Unexpired(m, now) ==> k in m && Unexpired(m, now)[k] == m[k]
  {
  }

  /**
   * The boundary between iteration and purge: an entry expiring exactly at
   * `now` is no longer iterated but survives a purge at `now`; one expiring
   * before `now` is neither iterated nor kept.
   */
  lemma ExpiryBoundary<K, V>(m: map<K, Entry<V>>, now: int, k: K)
    requires k in m
    ensures m[k].expiry == now ==> k !in Live(m, now) && k in Unexpired(m, now)
    ensures m[k].expiry < now ==> k !in Live(m, now) && k !in Unexpired(m, now)
    ensures k in Live(m, now) <==> m[k].expiry > now
  {
  }

  /**
   * Sliding time-to-live: an entry just stored at `now` with a non-negative
   * duration survives any purge up to `now + duration`, and with a positive
   * duration it is iterated at every instant before `now + duration`.
   */
  lemma SlidingExpiry<K, V>(m: map<K, Entry<V>>, k: K, v: V, now: int, duration: int, later: int)
    requires duration >= 0 && now <= later
    ensures later <= now + duration ==> k in Unexpired(m[k := Entry(now + duration, v)], later)
    ensures later < now + duration ==> k in Live(m[k := Entry(now + duration, v)], later)
  {
  }

  /** A sequence without repeats has as many elements as the set of its elements. */
  lemma {:induction false} DistinctCardinality<K>(s: seq<K>)
    requires forall i, j :: 0 <= i < j < |s| ==> s[i] != s[j]
    ensures |set x | x in s| == |s|
  {
    if s != [] {
      var tail := s[1..];
      DistinctCardinality(tail);
      assert (set x | x in s) == {s[0]} + (set x | x in tail);
      assert s[0] !in (set x | x in tail);
    }
  }

  /** `Cache`: the dictionary `_items` of (expiry, value) pairs. */
  class Cache<K(==), V> {
    const duration: int
    var items: map<K, Entry<V>>

    constructor (duration: int)
      ensures this.duration == duration && items == map[]
    {
      this.duration := duration;
      items := map[];
    }

    /**
     * The `try` branch of `__getitem__` together with the store that
     * follows it: a stored key yields its value, which is stored again
     * with a fresh expiry. The expiry itself is never checked, so an
     * expired but unpurged entry is returned and renewed.
     */
    method TryHit(key: K, now: int) returns (hit: Option<V>)
      modifies this
      ensures key in old(items) ==> hit == Some(old(items)[key].value)
      ensures key in old(items) ==> items == old(items)[key := Entry(now + duration, old(items)[key].value)]
      ensures key !in old(items) ==> hit == None && items == old(items)
    {
      if key in items {
        var value := items[key].value;
        items := items[key := Entry(now + duration, value)];
        hit := Some(value);
      } else {
        hit := None;
      }
    }

    /** Stores `value` under `key` with expiry `now + duration`. */
    method Store(key: K, now: int, value: V)
      modifies this
      ensures items == old(items)[key := Entry(now + duration, value)]
    {
      items := items[key := Entry(now + duration, value)];
    }

    /**
     * `__getitem__`: a hit returns the stored value without calling the
     * loader; a miss calls it once and returns its outcome. Either way a
     * successful lookup leaves `(now + duration, value)` under the key and
     * touches no other entry; a failing loader leaves the map as it was.
     * `fetched` reports whether the loader was called.
     */
    method Get<E>(key: K, now: int, fetch: K -> Result<V, E>) returns (r: Result<V, E>, fetched: bool)
      modifies this
      ensures fetched <==> key !in old(items)
      ensures !fetched ==> r == Ok(old(items)[key].value)
      ensures fetched ==> r == fetch(key)
      ensures r.Ok? ==> items == old(items)[key := Entry(now + duration, r.value)]
      ensures r.Err? ==> items == old(items)
    {
      var hit := TryHit(key, now);
      if hit.Some? {
        return Ok(hit.value), false;
      }
      fetched := true;
      r := fetch(key);
      if r.Ok? {
        Store(key, now, r.value);
      }
    }

    /**
     * `__iter__`: the keys whose expiry is strictly after `now`, each once.
     * (As written the generator calls `time.time()` on the imported
     * function and `.item()` on the dict, both of which raise; this is the
     * evident intent, `time()` and `.items()`.)
     */
    method LiveKeys(now: int) returns (keys: seq<K>)
      ensures forall k :: k in keys <==> k in items && items[k].expiry > now
      ensures forall i, j :: 0 <= i < j < |keys| ==> keys[i] != keys[j]
    {
      keys := [];
      var pending := items.Keys;
      while pending != {}
        invariant pending <= items.Keys
        invariant forall k :: k in keys <==> k in items && k !in pending && items[k].expiry > now
        invariant forall i, j :: 0 <= i < j < |keys| ==> keys[i] != keys[j]
        decreases pending
      {
        var k :| k in pending;
        if items[k].expiry > now {
          keys := keys + [k];
        }
        pending := pending - {k};
      }
    }

    /** `__len__`: the number of keys iteration yields. */
    method Len(now: int) returns (n: nat)
      ensures n == |Live(items, now)|
    {
      var keys := LiveKeys(now);
      DistinctCardinality(keys);
      assert (set x | x in keys) == Live(items, now);
      n := |keys|;
    }

    /** `purge`: drops exactly the entries whose expiry is before `now`. */
    method Purge(now: int)
      modifies this
      ensures items == Unexpired(old(items), now)
    {
      items := PurgeExpired(items, now);
    }

    /**
     * `next_expiry`: `None` for an empty map, otherwise the smallest expiry
     * over all stored entries, expired ones included.
     */
    method NextExpiry() returns (r: Option<int>)
      ensures r.None? <==> items == map[]
      ensures r.Some? ==> exists k :: k in items && items[k].expiry == r.value
      ensures r.Some? ==> forall k :: k in items ==> r.value <= items[k].expiry
    {
      r := None;
      var pending := items.Keys;
      while pending != {}
        invariant pending <= items.Keys
        invariant r.None? <==> pending == items.Keys
        invariant r.Some? ==> exists k :: k in items && k !in pending && items[k].expiry == r.value
        invariant r.Some? ==> forall k :: k in items && k !in pending ==> r.value <= items[k].expiry
        decreases pending
      {
        var k :| k in pending;
        var expiry := items[k].expiry;
        if r.None? || expiry < r.value {
          r := Some(expiry);
        }
        pending := pending - {k};
      }
      assert items.Keys == {} ==> items == map[];
    }
  }
}
