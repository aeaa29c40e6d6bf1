/** LruCachePool: the bounded cache pool.  It is android.util.LruCache with four hooks
    filled in: `create` asks the key's factory for a value and `sizeOf` charges each value
    its own cache size.  The fields are the LruCache's access-ordered map and running size;
    every method is proved to change them exactly as the functions of module LruCache say.

    The key's factory (ICacheId.createCache) performs I/O, so its outcome for this call is
    an input: `made` is what `cacheId.createCache()` returns if it is called. */
module CachePool {
  import opened Wrappers
  import opened LruCache

  /** The exceptions android.util.LruCache throws: a bound that is not positive, and a
      null value given to put. */
  datatype PoolFailure = IllegalMaxSize | NullValue

  /** `new LruCachePool(maxSize)`: the LruCache constructor throws for a bound that is not
      positive; otherwise the pool starts empty with that bound. */
  method NewLruCachePool<K(==,!new), V>(maxSize: int, cacheSize: V -> nat) returns (r: Result<LruCachePool<K, V>, PoolFailure>)
    ensures maxSize <= 0 ==> r == Err(IllegalMaxSize)
    ensures 0 < maxSize ==>
      && r.Ok? && fresh(r.value) && r.value.Valid()
      && r.value.maxSize == maxSize && r.value.cacheSize == cacheSize
      && r.value.Model() == Empty() && r.value.size == 0
  {
    if maxSize <= 0 {
      return Err(IllegalMaxSize);
    }
    var pool := new LruCachePool(maxSize, cacheSize);
    r := Ok(pool);
  }

  class LruCachePool<K(==,!new), V> {
    /** The bound on the sum of the resident values' cache sizes. */
    const maxSize: int
    /** ICacheable.getCacheSize, a non-negative byte count. */
    const cacheSize: V -> nat
    var entries: map<K, V>
    var order: seq<K>
    var size: nat

    function Model(): Store<K, V>
      reads this
    {
      Store(entries, order)
    }

    /** The running size is the sum of the resident values' sizes. */
    ghost predicate Consistent()
      reads this
    {
      WellFormed(Model()) && size == Size(Model(), cacheSize)
    }

    /** The pool invariant: the accounted size never exceeds maxSize. */
    ghost predicate Valid()
      reads this
    {
      Consistent() && 0 < maxSize && size <= maxSize
    }

    /** The pool with a positive bound; NewLruCachePool is the call that may throw. */
    constructor (maxSize: int, cacheSize: V -> nat)
      requires 0 < maxSize
      ensures Valid()
      ensures this.maxSize == maxSize && this.cacheSize == cacheSize
      ensures Model() == Empty() && size == 0
    {
      this.maxSize := maxSize;
      this.cacheSize := cacheSize;
      entries := map[];
      order := [];
      size := 0;
    }

    /** The sizeOf hook: nothing for a null value, otherwise the value's own cache size. */
    function SizeOf(key: K, value: Option<V>): (n: nat)
      reads this
      ensures value.None? ==> n == 0
      ensures value.Some? ==> n == cacheSize(value.value)
    {
      if value.None? then 0 else cacheSize(value.value)
    }

    /** The hit half of LruCache.get: a resident key is returned and becomes the most
        recently used; a missing key leaves the pool as it is. */
    method Lookup(k: K) returns (r: Option<V>)
      requires Valid()
      modifies this
      ensures Valid()
      ensures r == Get(old(Model()), k)
      ensures Model() == Touch(old(Model()), k)
      ensures size == old(size)
    {
      TouchKeepsSize(Model(), k, cacheSize);
      if k in entries {
        r := Some(entries[k]);
        order := RemoveKey(order, k) + [k];
      } else {
        r := None;
      }
    }

    /** LruCache.trimToSize: evict the eldest entry while the size is over `max` and the
        map is not empty. */
    method TrimToSize(max: int)
      requires Consistent()
      modifies this
      ensures Consistent()
      ensures Model() == Trim(old(Model()), max, cacheSize)
    {
      while size > max && order != []
        invariant Consistent()
        invariant Trim(Model(), max, cacheSize) == Trim(old(Model()), max, cacheSize)
        decreases |order|
      {
        var eldest := order[0];
        var value := entries[eldest];
        EvictEldest(Model(), max, cacheSize);
        entries := entries - {eldest};
        order := order[1..];
        size := size - SizeOf(eldest, Some(value));
      }
    }

    /** getCache: LruCache.get with the create hook.  A hit returns the pooled value without
        calling the factory; a miss calls it once, stores a non-null result (evicting the
        eldest entries if needed) and returns it, and a null result leaves the pool as it
        was. */
    method GetCache(k: K, made: Option<V>) returns (r: Option<V>, created: bool)
      requires Valid()
      modifies this
      ensures Valid()
      ensures k in old(entries) ==>
        && r == Some(old(entries)[k]) && !created
        && Model() == Touch(old(Model()), k)
      ensures k !in old(entries) ==>
        && r == made && created
        && Model() == (if made.Some? then Put(old(Model()), k, made.value, maxSize, cacheSize) else old(Model()))
    {
      r := Lookup(k);
      created := false;
      if r.None? {
        created := true;
        r := made;
        if made.Some? {
          var stored := PutCache(k, made);
        }
      }
    }

    /** putCache: LruCache.put.  The value replaces any earlier one for k, k becomes the
        most recent key, and the eldest entries are evicted while the pool is over its
        bound.  (LruCache.get's store of a created value does the same for an absent key.)
        A null value is refused before anything changes. */
    method PutCache(k: K, value: Option<V>) returns (r: Outcome<PoolFailure>)
      requires Valid()
      modifies this
      ensures Valid()
      ensures value.None? ==> r == Fail(NullValue) && Model() == old(Model()) && size == old(size)
      ensures value.Some? ==> r == Pass
      ensures value.Some? ==> Model() == Put(old(Model()), k, value.value, maxSize, cacheSize)
      ensures value.Some? ==> forall x :: x in entries ==>
        (x == k && entries[x] == value.value) || (x != k && x in old(entries) && entries[x] == old(entries)[x])
      ensures value.Some? && cacheSize(value.value) <= maxSize ==> k in entries && entries[k] == value.value
    {
      if value.None? {
        return Fail(NullValue);
      }
      var v := value.value;
      ghost var before := Model();
      PutBeforeTrim(before, k, v, cacheSize);
      PutWithinBound(before, k, v, maxSize, cacheSize);
      PutOnlyEvicts(before, k, v, maxSize, cacheSize);
      if cacheSize(v) <= maxSize {
        PutThenGet(before, k, v, maxSize, cacheSize);
      }
      var previous := if k in entries then Some(entries[k]) else None;
      size := size + SizeOf(k, Some(v)) - SizeOf(k, previous);
      entries := entries[k := v];
      order := RemoveKey(order, k) + [k];
      TrimToSize(maxSize);
      r := Pass;
    }

    /** removeCache: LruCache.remove.  Only k's entry goes; the size drops by its value's
        cache size. */
    method RemoveCache(k: K)
      requires Valid()
      modifies this
      ensures Valid()
      ensures Model() == Remove(old(Model()), k)
      ensures entries == old(entries) - {k}
      ensures size == old(size) - (if k in old(entries) then cacheSize(old(entries)[k]) else 0)
    {
      RemoveLowersSize(Model(), k, cacheSize);
      var previous := if k in entries then Some(entries[k]) else None;
      size := size - SizeOf(k, previous);
      entries := entries - {k};
      order := RemoveKey(order, k);
    }

    /** clearAllCache: LruCache.evictAll, which is trimToSize(-1). */
    method ClearAllCache()
      requires Valid()
      modifies this
      ensures Valid()
      ensures Model() == Empty() && size == 0
    {
      TrimNegativeEmpties(Model(), -1, cacheSize);
      TrimToSize(-1);
    }
  }
}
