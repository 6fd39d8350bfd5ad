/** The URL-decision cache (`createCacheManager` in background/helpers.js and the
    in-place `cacheManager` of background.js): a map from the raw URL string to the
    decision last written for it, stamped with the write time. Reads evict lazily;
    a periodic cleanup drops expired entries and then trims by write recency.
    Persistence to storage is a no-op here. */
module Cache {
  import opened Optional
  import C = Constants

  datatype Entry<V> = Entry(value: V, timestamp: int)

  type Cache<V> = map<string, Entry<V>>

  /** The outcome of a read: the entry on a hit, and the cache after lazy eviction. */
  datatype Lookup<V> = Lookup(hit: Option<Entry<V>>, cache: Cache<V>)

  /** An entry is served by `get` only while it is younger than the TTL. */
  predicate Fresh<V>(e: Entry<V>, now: int) {
    now - e.timestamp < C.CACHE_TTL_MS
  }

  /** An entry is dropped by `cleanup` only once it is older than the TTL. */
  predicate Expired<V>(e: Entry<V>, now: int) {
    now - e.timestamp > C.CACHE_TTL_MS
  }

  /** `get(url)`: the entry if it is fresh; otherwise that one key is evicted. */
  function Get<V>(c: Cache<V>, url: string, now: int): (r: Lookup<V>)
    ensures r.hit.Some? <==> url in c && Fresh(c[url], now)
    ensures r.hit.Some? ==> r.hit.value == c[url]
    ensures r.cache.Keys == (if r.hit.Some? then c.Keys else c.Keys - {url})
    ensures forall k :: k in r.cache ==> r.cache[k] == c[k]
  {
    if url !in c then Lookup(None, c)
    else if Fresh(c[url], now) then Lookup(Some(c[url]), c)
    else Lookup(None, c - {url})
  }

  /** `set(url, decision)`: overwrite with a fresh write time. */
  function Set<V>(c: Cache<V>, url: string, v: V, now: int): (r: Cache<V>)
    ensures r.Keys == c.Keys + {url}
    ensures r[url] == Entry(v, now)
    ensures forall k :: k in c && k != url ==> r[k] == c[k]
  {
    c[url := Entry(v, now)]
  }

  /** `clear()` */
  function Clear<V>(): (r: Cache<V>)
    ensures |r| == 0
  {
    map[]
  }

  /** The first phase of `cleanup`: every entry that is not expired. */
  function Unexpired<V>(c: Cache<V>, now: int): (r: Cache<V>)
    ensures forall k :: k in r <==> k in c && !Expired(c[k], now)
    ensures forall k :: k in r ==> r[k] == c[k]
  {
    map k | k in c && !Expired(c[k], now) :: c[k]
  }

  /** `cleanup()`: drop expired entries; if more than MAX_ENTRIES remain, keep the
      TRIMMED_SIZE most recently written ones. Among equal write times the source
      keeps the earlier-inserted key; here the choice among ties is left open. */
  method Cleanup<V>(c: Cache<V>, now: int) returns (r: Cache<V>)
    ensures forall k :: k in r ==> k in c && r[k] == c[k]
    ensures forall k :: k in r ==> !Expired(r[k], now)
    ensures |r| <= C.CACHE_MAX_ENTRIES
    ensures |Unexpired(c, now)| <= C.CACHE_MAX_ENTRIES ==> r == Unexpired(c, now)
    ensures |Unexpired(c, now)| > C.CACHE_MAX_ENTRIES ==>
      && |r| == C.CACHE_TRIMMED_SIZE
      && forall k, d :: k in r && d in c && !Expired(c[d], now) && d !in r ==>
           r[k].timestamp >= c[d].timestamp
  {
    if |c| == 0 {
      assert Unexpired(c, now) == c;
      return c;
    }
    var live := Unexpired(c, now);
    if |live| <= C.CACHE_MAX_ENTRIES {
      return live;
    }
    r := KeepNewest(live, C.CACHE_TRIMMED_SIZE);
  }

  /** Keep the `n` entries with the latest write times (`sort` descending, then `slice(0, n)`). */
  method KeepNewest<V>(m: Cache<V>, n: nat) returns (r: Cache<V>)
    requires n <= |m|
    ensures forall k :: k in r ==> k in m && r[k] == m[k]
    ensures |r| == n
    ensures forall k, d :: k in r && d in m && d !in r ==> r[k].timestamp >= m[d].timestamp
  {
    var kept: set<string> := {};
    var rest := m.Keys;
    var i: nat := 0;
    while i < n
      invariant kept !! rest && kept + rest == m.Keys
      invariant |kept| == i <= n
      invariant forall k, d :: k in kept && d in rest ==> m[k].timestamp >= m[d].timestamp
      decreases n - i
    {
      DisjointCard(kept, rest, m);
      var k := Newest(m, rest);
      kept, rest := kept + {k}, rest - {k};
      i := i + 1;
    }
    r := Restrict(m, kept);
  }

  lemma DisjointCard<V>(a: set<string>, b: set<string>, m: Cache<V>)
    requires a !! b && a + b == m.Keys
    ensures |b| == |m| - |a|
  {
    assert |a + b| == |a| + |b|;
  }

  function Restrict<V>(m: Cache<V>, keys: set<string>): (r: Cache<V>)
    requires keys <= m.Keys
    ensures r.Keys == keys && |r| == |keys|
    ensures forall k :: k in r ==> r[k] == m[k]
  {
    var r := map k | k in keys :: m[k];
    assert r.Keys == keys;
    r
  }

  /** A key of `s` whose entry was written last. */
  method Newest<V>(m: Cache<V>, s: set<string>) returns (k: string)
    requires s != {} && s <= m.Keys
    ensures k in s
    ensures forall d :: d in s ==> m[k].timestamp >= m[d].timestamp
  {
    k :| k in s;
    var todo := s - {k};
    while todo != {}
      invariant todo <= s && k in s
      invariant forall d :: d in s && d !in todo ==> m[k].timestamp >= m[d].timestamp
      decreases todo
    {
      var d :| d in todo;
      if m[d].timestamp > m[k].timestamp {
        k := d;
      }
      todo := todo - {d};
    }
  }

  // ---------------------------------------------------------------- properties

  /** A write is immediately readable, with the write time as its timestamp, and
      reading it evicts nothing. */
  lemma GetAfterSet<V>(c: Cache<V>, url: string, v: V, now: int)
    ensures Get(Set(c, url, v, now), url, now) == Lookup(Some(Entry(v, now)), Set(c, url, v, now))
  {
  }

  /** A write touches no other key: every other read sees the cache as before. */
  lemma SetLeavesOtherKeys<V>(c: Cache<V>, url: string, v: V, now: int, other: string, later: int)
    requires other != url
    ensures Get(Set(c, url, v, now), other, later).hit == Get(c, other, later).hit
  {
  }

  /** A write stays readable for exactly the TTL: hit strictly before, miss and
      eviction from then on. */
  lemma SetExpiresAfterTtl<V>(c: Cache<V>, url: string, v: V, now: int, later: int)
    requires now <= later
    ensures Get(Set(c, url, v, now), url, later).hit.Some? <==> later - now < C.CACHE_TTL_MS
    ensures later - now >= C.CACHE_TTL_MS ==> url !in Get(Set(c, url, v, now), url, later).cache
  {
  }

  /** The boundary quirk: an entry aged exactly the TTL is refused and evicted by
      `get`, yet survives the expiry phase of `cleanup`. */
  lemma TtlBoundaryQuirk<V>(c: Cache<V>, url: string, now: int)
    requires url in c && now - c[url].timestamp == C.CACHE_TTL_MS
    ensures Get(c, url, now).hit.None? && url !in Get(c, url, now).cache
    ensures url in Unexpired(c, now)
  {
  }

  /** After `clear` every read misses. */
  lemma GetAfterClear<V>(url: string, now: int)
    ensures Get(Clear<V>(), url, now).hit.None?
  {
  }
}
