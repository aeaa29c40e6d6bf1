/** ExpiresCachePool: the two-tier pool.  It extends LruCachePool in the source; here it
    owns one (`lru`, the bounded tier) and adds the secondary map `mCache` (`soft`) from key
    to a soft reference.  A soft reference is `Option<V>`: `None` once the garbage
    collector has reclaimed its value, which the environment may do at any time through
    Reclaim.

    The source overrides LruCachePool's `create` hook, which LruCache.get calls on a miss;
    BoundedGet is that inherited get with the overridden hook, step by step: the hit half
    (lru.Lookup), the hook (Create) and the store of a created value (lru.PutCache).

    Values are checked for staleness against the clock `now`, an input of GetCache. */
module ExpiresCache {
  import opened Wrappers
  import opened LruCache
  import opened CachePool

  /** `new ExpiresCachePool(maxSize)`: the inherited LruCache constructor throws for a bound
      that is not positive; otherwise both tiers start empty. */
  method NewExpiresCachePool<K(==,!new), V>(maxSize: int, cacheSize: V -> nat, isExpires: (V, int) -> bool)
      returns (r: Result<ExpiresCachePool<K, V>, PoolFailure>)
    ensures maxSize <= 0 ==> r == Err(IllegalMaxSize)
    ensures 0 < maxSize ==>
      && r.Ok? && fresh(r.value) && fresh(r.value.lru) && r.value.Valid()
      && r.value.lru.maxSize == maxSize && r.value.lru.cacheSize == cacheSize && r.value.isExpires == isExpires
      && r.value.lru.Model() == Empty() && r.value.soft == map[]
  {
    if maxSize <= 0 {
      return Err(IllegalMaxSize);
    }
    var pool := new ExpiresCachePool(maxSize, cacheSize, isExpires);
    r := Ok(pool);
  }

  /** The bounded tier's store after LruCache.get of k has yielded r: a hit is touched, a
      created value is put, and a null from the hook stores nothing. */
  function AfterGet<K(==,!new), V>(s: Store<K, V>, k: K, r: Option<V>, maxSize: int, cacheSize: V -> nat): (t: Store<K, V>)
    requires WellFormed(s)
    ensures WellFormed(t)
  {
    if k in s.entries then TouchKeepsSize(s, k, cacheSize); Touch(s, k)
    else if r.Some? then Put(s, k, r.value, maxSize, cacheSize)
    else s
  }

  /** The bounded tier's store after getCache's retry: k is removed, and the get that
      follows yields r. */
  function AfterRetry<K(==,!new), V>(s: Store<K, V>, k: K, r: Option<V>, maxSize: int, cacheSize: V -> nat): (t: Store<K, V>)
    requires WellFormed(s)
    ensures WellFormed(t)
  {
    RemoveLowersSize(s, k, cacheSize);
    AfterGet(Remove(s, k), k, r, maxSize, cacheSize)
  }

  /** The soft references after a bounded-tier get whose hook called the factory or not. */
  function AfterCreate<K, V>(soft: map<K, Option<V>>, k: K, called: bool, made: Option<V>): map<K, Option<V>> {
    if called && made.Some? then soft[k := made] else soft
  }

  class ExpiresCachePool<K(==,!new), V> {
    const lru: LruCachePool<K, V>
    var soft: map<K, Option<V>>
    /** IExpiresCacheable.isExpires, read against the clock. */
    const isExpires: (V, int) -> bool

    /** The value k's soft reference still holds, if there is one and it is not reclaimed. */
    function Remembered(k: K): Option<V>
      reads this
    {
      if k in soft then soft[k] else None
    }

    /** Every key of the bounded tier has a soft reference, and a reference that has not
        been reclaimed holds the same value as the bounded tier. */
    ghost predicate Coherent()
      reads this, lru
    {
      forall k :: k in lru.entries ==> k in soft && (soft[k].Some? ==> soft[k].value == lru.entries[k])
    }

    ghost predicate Valid()
      reads this, lru
    {
      lru.Valid() && Coherent()
    }

    /** What the bounded tier's get yields for k: the resident value, else the remembered
        one, else whatever the factory makes. */
    function TierValue(k: K, made: Option<V>): Option<V>
      reads this, lru
    {
      if k in lru.entries then Some(lru.entries[k])
      else if Remembered(k).Some? then Remembered(k)
      else made
    }

    /** The bounded tier's get for k would call the factory. */
    function ReachesFactory(k: K): bool
      reads this, lru
    {
      k !in lru.entries && Remembered(k).None?
    }

    /** The pool with a positive bound; NewExpiresCachePool is the call that may throw. */
    constructor (maxSize: int, cacheSize: V -> nat, isExpires: (V, int) -> bool)
      requires 0 < maxSize
      ensures Valid() && fresh(lru)
      ensures lru.maxSize == maxSize && lru.cacheSize == cacheSize && this.isExpires == isExpires
      ensures lru.Model() == Empty() && soft == map[]
    {
      lru := new LruCachePool(maxSize, cacheSize);
      soft := map[];
      this.isExpires := isExpires;
    }

    /** The garbage collector reclaims the value of k's soft reference, if it has one. */
    method Reclaim(k: K)
      requires Valid()
      modifies this
      ensures Valid()
      ensures soft == if k in old(soft) then old(soft)[k := None] else old(soft)
    {
      if k in soft {
        soft := soft[k := None];
      }
    }

    /** clearAllCache empties both tiers. */
    method ClearAllCache()
      requires Valid()
      modifies this, lru
      ensures Valid()
      ensures soft == map[] && lru.Model() == Empty()
    {
      soft := map[];
      lru.ClearAllCache();
    }

    /** removeCache drops k's soft reference and k's bounded-tier entry, and nothing else. */
    method RemoveCache(k: K)
      requires Valid()
      modifies this, lru
      ensures Valid()
      ensures soft == old(soft) - {k}
      ensures lru.Model() == Remove(old(lru.Model()), k)
      ensures lru.entries == old(lru.entries) - {k}
    {
      soft := soft - {k};
      lru.RemoveCache(k);
    }

    /** putCache overwrites k's soft reference with v, then puts v in the bounded tier.  A
        null value still replaces the soft reference, by one that holds nothing, before the
        bounded tier's put refuses it. */
    method PutCache(k: K, v: Option<V>) returns (r: Outcome<PoolFailure>)
      requires Valid()
      modifies this, lru
      ensures Valid()
      ensures soft == old(soft)[k := v]
      ensures v.None? ==> r == Fail(NullValue) && lru.Model() == old(lru.Model())
      ensures v.Some? ==> r == Pass && lru.Model() == Put(old(lru.Model()), k, v.value, lru.maxSize, lru.cacheSize)
    {
      soft := soft[k := v];
      r := lru.PutCache(k, v);
    }

    /** The create hook, called on a bounded-tier miss: a soft reference that still holds a
        value is the answer and the factory is not called; otherwise the factory is called
        and a non-null result is remembered in a fresh soft reference. */
    method Create(k: K, made: Option<V>) returns (r: Option<V>, created: bool)
      requires Valid() && k !in lru.entries
      modifies this
      ensures Valid()
      ensures old(Remembered(k)).Some? ==> r == old(Remembered(k)) && !created && soft == old(soft)
      ensures old(Remembered(k)).None? ==>
        && r == made && created
        && soft == (if made.Some? then old(soft)[k := made] else old(soft))
      ensures soft - {k} == old(soft) - {k}
    {
      UpdateThenRemove(soft, k, made);
      if k in soft && soft[k].Some? {
        r := soft[k];
        created := false;
        return;
      }
      r := made;
      created := true;
      if made.Some? {
        soft := soft[k := made];
      }
    }

    /** The get inherited from LruCache, with the create hook above: a hit touches the
        key; on a miss the hook's non-null result is stored in the bounded tier. */
    method BoundedGet(k: K, made: Option<V>) returns (r: Option<V>, created: bool)
      requires Valid()
      modifies this, lru
      ensures Valid()
      ensures r == old(TierValue(k, made)) && created == old(ReachesFactory(k))
      ensures soft == AfterCreate(old(soft), k, old(ReachesFactory(k)), made)
      ensures soft - {k} == old(soft) - {k}
      ensures lru.Model() == AfterGet(old(lru.Model()), k, r, lru.maxSize, lru.cacheSize)
      ensures KeepsOthers(old(lru.entries), lru.entries, k)
      ensures r.Some? && lru.cacheSize(r.value) <= lru.maxSize ==> k in lru.entries && lru.entries[k] == r.value
      ensures r.None? ==> k !in lru.entries
    {
      r := lru.Lookup(k);
      created := false;
      if r.None? {
        r, created := Create(k, made);
        if r.Some? {
          var stored := lru.PutCache(k, r);
        }
      }
    }

    /** The stale path of getCache: remove k from both tiers and ask the bounded tier once
        more.  With k's soft reference gone the retry always reaches the factory, so its
        result is the factory's, stored in both tiers when it is not null. */
    method Refresh(k: K, made: Option<V>) returns (r: Option<V>, created: bool)
      requires Valid()
      modifies this, lru
      ensures Valid()
      ensures r == made && created
      ensures soft == AfterCreate(old(soft) - {k}, k, true, made)
      ensures lru.Model() == AfterRetry(old(lru.Model()), k, made, lru.maxSize, lru.cacheSize)
      ensures KeepsOthers(old(lru.entries), lru.entries, k)
      ensures r.Some? && lru.cacheSize(r.value) <= lru.maxSize ==> k in lru.entries && lru.entries[k] == r.value
      ensures r.None? ==> k !in lru.entries
    {
      RemoveCache(k);
      assert ReachesFactory(k) && TierValue(k, made) == made;
      r, created := BoundedGet(k, made);
    }

    /** getCache.  A null from the bounded tier is returned as is.  A value that is not
        stale is returned as is; on a hit the factory and the soft references are left
        alone.  A stale value makes the pool refresh k, and the factory's result is
        returned even if it too is stale.  `made` is what the factory returns if the first
        bounded-tier get calls it, and `remade` what it returns on the retry.  `calls`
        counts the factory calls: at most one per bounded-tier get. */
    method GetCache(k: K, made: Option<V>, remade: Option<V>, now: int) returns (r: Option<V>, calls: nat)
      requires Valid()
      modifies this, lru
      ensures Valid()
      ensures var first := old(TierValue(k, made));
        && (first.None? ==> r.None?)
        && (first.Some? && !isExpires(first.value, now) ==> r == first)
        && (first.Some? && isExpires(first.value, now) ==> r == remade && Remembered(k) == remade)
      ensures var first := old(TierValue(k, made));
        var stale := first.Some? && isExpires(first.value, now);
        var called := old(ReachesFactory(k));
        var soft1 := AfterCreate(old(soft), k, called, made);
        var store1 := AfterGet(old(lru.Model()), k, first, lru.maxSize, lru.cacheSize);
        && calls == (if called then 1 else 0) + (if stale then 1 else 0)
        && soft == (if stale then AfterCreate(soft1 - {k}, k, true, remade) else soft1)
        && lru.Model() == (if stale then AfterRetry(store1, k, remade, lru.maxSize, lru.cacheSize) else store1)
      ensures k in old(lru.entries) && !isExpires(old(lru.entries)[k], now) ==>
        lru.Model() == Touch(old(lru.Model()), k) && soft == old(soft) && calls == 0
      ensures soft - {k} == old(soft) - {k}
      ensures KeepsOthers(old(lru.entries), lru.entries, k)
      ensures r.Some? && lru.cacheSize(r.value) <= lru.maxSize ==> k in lru.entries && lru.entries[k] == r.value
      ensures r.None? ==> k !in lru.entries
    {
      ghost var soft0 := soft;
      var first, created := BoundedGet(k, made);
      ghost var soft1 := soft;
      var again;
      r, again := Revalidate(k, first, remade, now);
      assert soft - {k} == soft1 - {k} == soft0 - {k};
      calls := (if created then 1 else 0) + (if again then 1 else 0);
    }

    /** The second half of getCache, given what the bounded tier yielded first: a null or a
        value that is not stale is the answer and nothing changes; a stale value makes the
        pool refresh k, and the factory's new result `remade` is the answer. */
    method Revalidate(k: K, first: Option<V>, remade: Option<V>, now: int) returns (r: Option<V>, again: bool)
      requires Valid()
      modifies this, lru
      ensures Valid()
      ensures again == (first.Some? && isExpires(first.value, now))
      ensures !again ==> r == first && soft == old(soft) && lru.Model() == old(lru.Model())
      ensures again ==>
        && r == remade && Remembered(k) == remade
        && soft == AfterCreate(old(soft) - {k}, k, true, remade)
        && lru.Model() == AfterRetry(old(lru.Model()), k, remade, lru.maxSize, lru.cacheSize)
        && (r.Some? && lru.cacheSize(r.value) <= lru.maxSize ==> k in lru.entries && lru.entries[k] == r.value)
        && (r.None? ==> k !in lru.entries)
      ensures soft - {k} == old(soft) - {k}
      ensures KeepsOthers(old(lru.entries), lru.entries, k)
    {
      r, again := first, false;
      if first.Some? && isExpires(first.value, now) {
        ghost var soft1 := soft;
        var created;
        r, created := Refresh(k, remade);
        UpdateThenRemove(soft1 - {k}, k, remade);
        again := true;
      }
    }
  }

  /** Every entry of `m1` other than k's was already in `m0` with the same value: the step
      from `m0` to `m1` added or changed nothing but k. */
  ghost predicate KeepsOthers<K, V>(m0: map<K, V>, m1: map<K, V>, k: K) {
    forall x :: x in m1 && x != k ==> x in m0 && m1[x] == m0[x]
  }

  /** Two steps that each keep every other key's entry keep it together. */
  lemma FrameChain<K, V>(m0: map<K, V>, m1: map<K, V>, m2: map<K, V>, k: K)
    requires KeepsOthers(m0, m1, k) && KeepsOthers(m1, m2, k)
    ensures KeepsOthers(m0, m2, k)
  {
  }

  lemma UpdateThenRemove<K, V>(m: map<K, Option<V>>, k: K, v: Option<V>)
    ensures m[k := v] - {k} == m - {k}
  {
  }
}
