/**
 The service's response cache, seen from the service: a map from cache key to the last
 validator and payload stored under it. The LRU library behind it may drop entries
 (capacity pressure, an entry larger than the whole budget) but never invents one, so
 eviction is modelled as removing any set of keys.
 */
module CacheStore {
  import opened Wrappers

  /** What the service stores per key: the normalised etag and the payload it validates. */
  datatype CacheItem<D> = CacheItem(etag: string, data: D)

  type Store<D> = map<string, CacheItem<D>>

  /** The cache's `get`: the item under `key`, or absence. */
  function Get<D>(store: Store<D>, key: string): (r: Option<CacheItem<D>>)
    ensures r.Some? <==> key in store
    ensures r.Some? ==> r.value == store[key]
  {
    if key in store then Some(store[key]) else None
  }

  /** Every entry of `small` is in `big` with the same item: `small` is `big` after some evictions. */
  ghost predicate SubStore<D>(small: Store<D>, big: Store<D>)
  {
    small.Keys <= big.Keys && forall k :: k in small ==> small[k] == big[k]
  }

  /** The library dropping the entries under `gone`; what is left is untouched. */
  function Evict<D>(store: Store<D>, gone: set<string>): (r: Store<D>)
    ensures SubStore(r, store)
    ensures r.Keys == store.Keys - gone
  {
    store - gone
  }

  /**
   The cache's `length`: the sum of the sizes of the stored items. `size` stands for the
   size estimator the cache is configured with; nothing is assumed about it.
   */
  ghost function Length<D>(store: Store<D>, size: CacheItem<D> -> nat): nat
    decreases |store|
  {
    if store == map[] then 0
    else
      var k :| k in store;
      size(store[k]) + Length(store - {k}, size)
  }

  /** Any stored item can be taken out of the sum first. */
  lemma {:induction false} LengthRemove<D>(store: Store<D>, size: CacheItem<D> -> nat, k: string)
    requires k in store
    ensures Length(store, size) == size(store[k]) + Length(store - {k}, size)
    decreases |store|
  {
    var k' :| k' in store && Length(store, size) == size(store[k']) + Length(store - {k'}, size);
    if k' != k {
      var both := store - {k'} - {k};
      assert store - {k} - {k'} == both;
      LengthRemove(store - {k'}, size, k);
      LengthRemove(store - {k}, size, k');
    }
  }

  /** Evicting entries never makes the sum of the sizes grow. */
  lemma {:induction false} LengthSubStore<D>(small: Store<D>, big: Store<D>, size: CacheItem<D> -> nat)
    requires SubStore(small, big)
    ensures Length(small, size) <= Length(big, size)
    decreases |big|
  {
    if big != map[] {
      var k :| k in big;
      LengthRemove(big, size, k);
      if k in small {
        LengthRemove(small, size, k);
        LengthSubStore(small - {k}, big - {k}, size);
      } else {
        LengthSubStore(small, big - {k}, size);
      }
    }
  }

  /** Storing `item` under `key` replaces that key's share of the sum by the size of `item`. */
  lemma LengthStore<D>(store: Store<D>, size: CacheItem<D> -> nat, key: string, item: CacheItem<D>)
    ensures Length(store[key := item], size) == Length(store - {key}, size) + size(item)
    ensures key in store ==> Length(store, size) == Length(store - {key}, size) + size(store[key])
    ensures key !in store ==> Length(store, size) == Length(store - {key}, size)
  {
    LengthRemove(store[key := item], size, key);
    assert store[key := item] - {key} == store - {key};
    if key in store {
      LengthRemove(store, size, key);
    } else {
      assert store - {key} == store;
    }
  }

  /** The `raw` half of `cacheUsage()`. */
  datatype Usage = Usage(limit: int, used: int, remaining: int)

  /** Raw usage as `cacheUsage()` reports it, from the configured `max` and a total length. */
  function RawUsage(max: nat, length: nat): Usage
  {
    Usage(limit := max, used := length, remaining := max - length)
  }

  /**
   `cacheUsage()`'s raw numbers for a store: used is the sum of the sizes of what is stored,
   used and remaining always add up to the limit, and nothing is left over once the store
   outgrows the budget.
   */
  ghost function CacheUsage<D>(max: nat, store: Store<D>, size: CacheItem<D> -> nat): (u: Usage)
    ensures u.limit == max && u.used == Length(store, size)
    ensures u.used + u.remaining == u.limit
    ensures Length(store, size) <= max ==> 0 <= u.remaining <= u.limit
    ensures store == map[] ==> u == Usage(max, 0, max)
  {
    RawUsage(max, Length(store, size))
  }

  /** Eviction never increases the usage reported, nor decreases what remains. */
  lemma EvictNeverGrowsUsage<D>(max: nat, store: Store<D>, size: CacheItem<D> -> nat, gone: set<string>)
    ensures CacheUsage(max, Evict(store, gone), size).used <= CacheUsage(max, store, size).used
    ensures CacheUsage(max, Evict(store, gone), size).remaining >= CacheUsage(max, store, size).remaining
  {
    LengthSubStore(Evict(store, gone), store, size);
  }

  /**
   The usage reported after the first cached fetch in the service's own test: one item of
   48 bytes against a budget of 5000.
   */
  lemma UsageExample<D>(key: string, item: CacheItem<D>, size: CacheItem<D> -> nat)
    requires size(item) == 48
    ensures CacheUsage(5000, map[key := item], size) == Usage(5000, 48, 4952)
  {
    var empty: Store<D> := map[];
    LengthStore(empty, size, key, item);
    assert empty - {key} == empty;
  }
}
