/** The store behind android.util.LruCache, on which LruCachePool is built: an
    access-ordered map (least recently used key first) and the running size, the sum of
    each resident value's cache size.  The base class is not part of this model's source
    files; its documented behaviour is written out here as pure functions, and the class
    LruCachePool (module CachePool) is proved to update its fields as these functions say. */
module LruCache {
  import opened Wrappers

  /** The entries and their access order, eldest first. */
  datatype Store<K, V> = Store(entries: map<K, V>, order: seq<K>)

  ghost predicate Distinct<K(!new)>(s: seq<K>) {
    forall i, j :: 0 <= i < j < |s| ==> s[i] != s[j]
  }

  /** The order lists every resident key exactly once. */
  ghost predicate WellFormed<K(!new), V>(s: Store<K, V>) {
    && Distinct(s.order)
    && (forall k :: k in s.entries <==> k in s.order)
  }

  /** The accounted size of the keys in `order`: the sum of their values' cache sizes. */
  function Weight<K(==,!new), V>(order: seq<K>, entries: map<K, V>, cacheSize: V -> nat): nat
    requires forall k :: k in order ==> k in entries
  {
    if order == [] then 0
    else cacheSize(entries[order[0]]) + Weight(order[1..], entries, cacheSize)
  }

  function Size<K(==,!new), V>(s: Store<K, V>, cacheSize: V -> nat): nat
    requires WellFormed(s)
  {
    Weight(s.order, s.entries, cacheSize)
  }

  /** The order with `k` taken out; the relative order of the other keys is kept. */
  function RemoveKey<K(==,!new)>(order: seq<K>, k: K): (r: seq<K>)
    ensures forall x :: x in r <==> x in order && x != k
  {
    if order == [] then []
    else if order[0] == k then RemoveKey(order[1..], k)
    else [order[0]] + RemoveKey(order[1..], k)
  }

  lemma {:induction false} RemoveKeyDistinct<K(!new)>(order: seq<K>, k: K)
    requires Distinct(order)
    ensures Distinct(RemoveKey(order, k))
  {
    if order != [] {
      assert Distinct(order[1..]);
      RemoveKeyDistinct(order[1..], k);
      var t := RemoveKey(order[1..], k);
      if order[0] != k {
        assert order[0] !in t;
        forall i, j | 0 <= i < j < |[order[0]] + t| ensures ([order[0]] + t)[i] != ([order[0]] + t)[j] {
          if i > 0 {
            assert ([order[0]] + t)[i] == t[i - 1] && ([order[0]] + t)[j] == t[j - 1];
          } else {
            assert ([order[0]] + t)[j] == t[j - 1];
          }
        }
      }
    }
  }

  /** x is used less recently than y. */
  ghost predicate Before<K(!new)>(order: seq<K>, x: K, y: K) {
    exists i, j :: 0 <= i < j < |order| && order[i] == x && order[j] == y
  }

  function Get<K(==,!new), V>(s: Store<K, V>, k: K): Option<V> {
    if k in s.entries then Some(s.entries[k]) else None
  }

  /** A hit moves its key to the most recently used end. */
  function Touch<K(==,!new), V>(s: Store<K, V>, k: K): Store<K, V> {
    if k in s.entries then Store(s.entries, RemoveKey(s.order, k) + [k]) else s
  }

  /** LruCache.trimToSize: evict the eldest entry while the size is over `maxSize` and
      the map is not empty. */
  function Trim<K(==,!new), V>(s: Store<K, V>, maxSize: int, cacheSize: V -> nat): (r: Store<K, V>)
    requires WellFormed(s)
    ensures WellFormed(r)
    decreases |s.order|
  {
    if s.order == [] || Size(s, cacheSize) <= maxSize then s
    else Trim(Store(s.entries - {s.order[0]}, s.order[1..]), maxSize, cacheSize)
  }

  /** LruCache.put: insert or replace, make the key the most recent, then trim. */
  function Put<K(==,!new), V>(s: Store<K, V>, k: K, v: V, maxSize: int, cacheSize: V -> nat): Store<K, V>
    requires WellFormed(s)
  {
    PutBeforeTrim(s, k, v, cacheSize);
    Trim(Store(s.entries[k := v], RemoveKey(s.order, k) + [k]), maxSize, cacheSize)
  }

  /** LruCache.remove. */
  function Remove<K(==,!new), V>(s: Store<K, V>, k: K): Store<K, V> {
    Store(s.entries - {k}, RemoveKey(s.order, k))
  }

  function Empty<K(==,!new), V>(): Store<K, V> {
    Store(map[], [])
  }

  // ---------------------------------------------------------------------------------
  // Size accounting

  lemma {:induction false} WeightAppend<K(!new), V>(order: seq<K>, k: K, entries: map<K, V>, cacheSize: V -> nat)
    requires forall x :: x in order ==> x in entries
    requires k in entries
    ensures Weight(order + [k], entries, cacheSize) == Weight(order, entries, cacheSize) + cacheSize(entries[k])
  {
    if order != [] {
      assert (order + [k])[1..] == order[1..] + [k];
      WeightAppend(order[1..], k, entries, cacheSize);
    }
  }

  lemma {:induction false} WeightRemoveKey<K(!new), V>(order: seq<K>, k: K, entries: map<K, V>, cacheSize: V -> nat)
    requires Distinct(order)
    requires forall x :: x in order ==> x in entries
    ensures Weight(RemoveKey(order, k), entries, cacheSize)
            == Weight(order, entries, cacheSize) - (if k in order then cacheSize(entries[k]) else 0)
  {
    if order != [] {
      assert Distinct(order[1..]);
      WeightRemoveKey(order[1..], k, entries, cacheSize);
      if order[0] != k {
        assert ([order[0]] + RemoveKey(order[1..], k))[1..] == RemoveKey(order[1..], k);
      } else {
        assert k !in order[1..];
      }
    }
  }

  /** The weight of an order depends only on the entries of its own keys. */
  lemma {:induction false} WeightFrame<K(!new), V>(order: seq<K>, m1: map<K, V>, m2: map<K, V>, cacheSize: V -> nat)
    requires forall x :: x in order ==> x in m1 && x in m2 && m1[x] == m2[x]
    ensures Weight(order, m1, cacheSize) == Weight(order, m2, cacheSize)
  {
    if order != [] {
      WeightFrame(order[1..], m1, m2, cacheSize);
    }
  }

  /** A hit keeps every entry and the accounted size; the key becomes the most recent. */
  lemma TouchKeepsSize<K(!new), V>(s: Store<K, V>, k: K, cacheSize: V -> nat)
    requires WellFormed(s)
    ensures WellFormed(Touch(s, k))
    ensures Touch(s, k).entries == s.entries
    ensures Size(Touch(s, k), cacheSize) == Size(s, cacheSize)
    ensures k in s.entries ==> Touch(s, k).order[|Touch(s, k).order| - 1] == k
  {
    if k in s.entries {
      var o := RemoveKey(s.order, k);
      WeightRemoveKey(s.order, k, s.entries, cacheSize);
      WeightAppend(o, k, s.entries, cacheSize);
      RemoveKeyDistinct(s.order, k);
      AppendFreshDistinct(o, k);
    }
  }

  lemma AppendFreshDistinct<K(!new)>(o: seq<K>, k: K)
    requires Distinct(o) && k !in o
    ensures Distinct(o + [k])
  {
    forall i, j | 0 <= i < j < |o + [k]| ensures (o + [k])[i] != (o + [k])[j] {
      if j == |o| {
        assert (o + [k])[i] == o[i];
      }
    }
  }

  /** The store that Put trims: the new value is written and its key made the most recent. */
  lemma PutBeforeTrim<K(!new), V>(s: Store<K, V>, k: K, v: V, cacheSize: V -> nat)
    requires WellFormed(s)
    ensures WellFormed(Store(s.entries[k := v], RemoveKey(s.order, k) + [k]))
    ensures Size(Store(s.entries[k := v], RemoveKey(s.order, k) + [k]), cacheSize)
            == Size(s, cacheSize) - (if k in s.entries then cacheSize(s.entries[k]) else 0) + cacheSize(v)
  {
    var m := s.entries[k := v];
    var o := RemoveKey(s.order, k);
    RemoveKeyDistinct(s.order, k);
    AppendFreshDistinct(o, k);
    WeightRemoveKey(s.order, k, s.entries, cacheSize);
    WeightFrame(o, s.entries, m, cacheSize);
    WeightAppend(o, k, m, cacheSize);
  }

  /** Removing a resident key lowers the size by that key's cache size. */
  lemma {:induction false} RemoveLowersSize<K(!new), V>(s: Store<K, V>, k: K, cacheSize: V -> nat)
    requires WellFormed(s)
    ensures WellFormed(Remove(s, k))
    ensures Remove(s, k).entries == s.entries - {k}
    ensures Size(Remove(s, k), cacheSize) == Size(s, cacheSize) - (if k in s.entries then cacheSize(s.entries[k]) else 0)
  {
    var o := RemoveKey(s.order, k);
    RemoveKeyDistinct(s.order, k);
    WeightRemoveKey(s.order, k, s.entries, cacheSize);
    WeightFrame(o, s.entries, s.entries - {k}, cacheSize);
  }

  // ---------------------------------------------------------------------------------
  // Eviction

  /** Trimming leaves a suffix of the order and keeps the survivors' values. */
  lemma TrimKeepsSuffix<K(!new), V>(s: Store<K, V>, maxSize: int, cacheSize: V -> nat)
    requires WellFormed(s)
    ensures var r := Trim(s, maxSize, cacheSize);
      && |r.order| <= |s.order|
      && r.order == s.order[|s.order| - |r.order|..]
      && (forall x :: x in r.entries ==> x in s.entries && r.entries[x] == s.entries[x])
  {
    TrimKeepsOrderSuffix(s, maxSize, cacheSize);
    TrimKeepsValues(s, maxSize, cacheSize);
  }

  lemma {:induction false} TrimKeepsOrderSuffix<K(!new), V>(s: Store<K, V>, maxSize: int, cacheSize: V -> nat)
    requires WellFormed(s)
    ensures var r := Trim(s, maxSize, cacheSize);
      |r.order| <= |s.order| && r.order == s.order[|s.order| - |r.order|..]
    decreases |s.order|
  {
    if s.order != [] && Size(s, cacheSize) > maxSize {
      var t := Store(s.entries - {s.order[0]}, s.order[1..]);
      EvictEldest(s, maxSize, cacheSize);
      TrimKeepsOrderSuffix(t, maxSize, cacheSize);
      var r := Trim(t, maxSize, cacheSize);
      TailSuffix(s.order, |t.order| - |r.order|);
    }
  }

  lemma TailSuffix<K>(q: seq<K>, a: nat)
    requires q != [] && a <= |q| - 1
    ensures q[1..][a..] == q[a + 1..]
  {
  }

  lemma {:induction false} TrimKeepsValues<K(!new), V>(s: Store<K, V>, maxSize: int, cacheSize: V -> nat)
    requires WellFormed(s)
    ensures var r := Trim(s, maxSize, cacheSize);
      forall x :: x in r.entries ==> x in s.entries && r.entries[x] == s.entries[x]
    decreases |s.order|
  {
    if s.order != [] && Size(s, cacheSize) > maxSize {
      var t := Store(s.entries - {s.order[0]}, s.order[1..]);
      EvictEldest(s, maxSize, cacheSize);
      TrimKeepsValues(t, maxSize, cacheSize);
    }
  }

  /** After a trim the size is within the bound, unless nothing is left. */
  lemma {:induction false} TrimFits<K(!new), V>(s: Store<K, V>, maxSize: int, cacheSize: V -> nat)
    requires WellFormed(s)
    ensures var r := Trim(s, maxSize, cacheSize);
      r.order == [] || Size(r, cacheSize) <= maxSize
    decreases |s.order|
  {
    if s.order != [] && Size(s, cacheSize) > maxSize {
      TrimFits(Store(s.entries - {s.order[0]}, s.order[1..]), maxSize, cacheSize);
    }
  }

  /** Every key a trim evicts was evicted while the size was over the bound: the keys
      still to be evicted or kept at that moment weighed more than `maxSize`. */
  lemma {:induction false} TrimEvictsOnlyWhenOver<K(!new), V>(s: Store<K, V>, maxSize: int, cacheSize: V -> nat)
    requires WellFormed(s)
    ensures var r := Trim(s, maxSize, cacheSize);
      |r.order| <= |s.order| &&
      forall j :: 0 <= j < |s.order| - |r.order| ==> Weight(s.order[j..], s.entries, cacheSize) > maxSize
    decreases |s.order|
  {
    if s.order != [] && Size(s, cacheSize) > maxSize {
      var t := Store(s.entries - {s.order[0]}, s.order[1..]);
      TrimEvictsOnlyWhenOver(t, maxSize, cacheSize);
      var r := Trim(t, maxSize, cacheSize);
      forall j | 0 <= j < |s.order| - |r.order|
        ensures Weight(s.order[j..], s.entries, cacheSize) > maxSize
      {
        if j > 0 {
          assert s.order[j..] == t.order[j - 1..];
          WeightFrame(t.order[j - 1..], s.entries, t.entries, cacheSize);
        } else {
          assert s.order[0..] == s.order;
        }
      }
    }
  }

  /** Trimming evicts a prefix of the order (the least recently used keys) and keeps the
      values of the survivors; each eviction happened while the size was over the bound,
      and afterwards the size is within the bound unless nothing is left. */
  lemma TrimEvictsEldest<K(!new), V>(s: Store<K, V>, maxSize: int, cacheSize: V -> nat)
    requires WellFormed(s)
    ensures var r := Trim(s, maxSize, cacheSize);
      && |r.order| <= |s.order|
      && r.order == s.order[|s.order| - |r.order|..]
      && (forall x :: x in r.entries ==> x in s.entries && r.entries[x] == s.entries[x])
      && (forall j :: 0 <= j < |s.order| - |r.order| ==> Weight(s.order[j..], s.entries, cacheSize) > maxSize)
      && (r.order == [] || Size(r, cacheSize) <= maxSize)
  {
    TrimKeepsSuffix(s, maxSize, cacheSize);
    TrimFits(s, maxSize, cacheSize);
    TrimEvictsOnlyWhenOver(s, maxSize, cacheSize);
  }

  /** The capacity invariant: after a trim to a non-negative bound, the size is within it. */
  lemma TrimBound<K(!new), V>(s: Store<K, V>, maxSize: int, cacheSize: V -> nat)
    requires WellFormed(s) && 0 <= maxSize
    ensures Size(Trim(s, maxSize, cacheSize), cacheSize) <= maxSize
  {
    TrimEvictsEldest(s, maxSize, cacheSize);
  }

  /** Trimming to a negative bound (LruCache.evictAll) leaves nothing. */
  lemma {:induction false} TrimNegativeEmpties<K(!new), V>(s: Store<K, V>, maxSize: int, cacheSize: V -> nat)
    requires WellFormed(s) && maxSize < 0
    ensures Trim(s, maxSize, cacheSize) == Empty()
    decreases |s.order|
  {
    if s.order != [] {
      TrimNegativeEmpties(Store(s.entries - {s.order[0]}, s.order[1..]), maxSize, cacheSize);
    } else {
      assert s.entries == map[];
    }
  }

  /** One step of a trim: the eldest entry goes and the size drops by its value's size. */
  lemma EvictEldest<K(!new), V>(s: Store<K, V>, maxSize: int, cacheSize: V -> nat)
    requires WellFormed(s) && s.order != [] && Size(s, cacheSize) > maxSize
    ensures var t := Store(s.entries - {s.order[0]}, s.order[1..]);
      && WellFormed(t)
      && Size(t, cacheSize) == Size(s, cacheSize) - cacheSize(s.entries[s.order[0]])
      && Trim(t, maxSize, cacheSize) == Trim(s, maxSize, cacheSize)
  {
    var eldest := s.order[0];
    assert eldest !in s.order[1..];
    WeightFrame(s.order[1..], s.entries, s.entries - {eldest}, cacheSize);
  }

  /** A store within its bound is left alone by a trim. */
  lemma TrimWithinBound<K(!new), V>(s: Store<K, V>, maxSize: int, cacheSize: V -> nat)
    requires WellFormed(s) && Size(s, cacheSize) <= maxSize
    ensures Trim(s, maxSize, cacheSize) == s
  {
  }

  /** A trim keeps the most recent key when its value fits the bound on its own. */
  lemma TrimKeepsNewestIfFits<K(!new), V>(s: Store<K, V>, maxSize: int, cacheSize: V -> nat)
    requires WellFormed(s) && s.order != []
    requires cacheSize(s.entries[s.order[|s.order| - 1]]) <= maxSize
    ensures var r := Trim(s, maxSize, cacheSize);
      r.order != [] && r.order[|r.order| - 1] == s.order[|s.order| - 1]
  {
    TrimEvictsEldest(s, maxSize, cacheSize);
    var r := Trim(s, maxSize, cacheSize);
    var n := |s.order|;
    assert s.order[n - 1..] == [s.order[n - 1]];
    assert Weight(s.order[n - 1..], s.entries, cacheSize) == cacheSize(s.entries[s.order[n - 1]]);
  }

  // ---------------------------------------------------------------------------------
  // The pool operations

  /** The size bound holds after every put. */
  lemma PutWithinBound<K(!new), V>(s: Store<K, V>, k: K, v: V, maxSize: int, cacheSize: V -> nat)
    requires WellFormed(s) && 0 <= maxSize
    ensures WellFormed(Put(s, k, v, maxSize, cacheSize))
    ensures Size(Put(s, k, v, maxSize, cacheSize), cacheSize) <= maxSize
  {
    PutBeforeTrim(s, k, v, cacheSize);
    TrimBound(Store(s.entries[k := v], RemoveKey(s.order, k) + [k]), maxSize, cacheSize);
  }

  /** After a put every resident entry is the new one or an older one that was already
      resident: a put adds or overwrites and otherwise only evicts. */
  lemma PutOnlyEvicts<K(!new), V>(s: Store<K, V>, k: K, v: V, maxSize: int, cacheSize: V -> nat)
    requires WellFormed(s)
    ensures var r := Put(s, k, v, maxSize, cacheSize);
      forall x :: x in r.entries ==> (x == k && r.entries[x] == v) || (x != k && x in s.entries && r.entries[x] == s.entries[x])
  {
    PutBeforeTrim(s, k, v, cacheSize);
    TrimEvictsEldest(Store(s.entries[k := v], RemoveKey(s.order, k) + [k]), maxSize, cacheSize);
  }

  /** After putCache(k, v), getCache(k) is a hit returning v, as long as v fits the pool
      on its own; k is then the most recently used key. */
  lemma PutThenGet<K(!new), V>(s: Store<K, V>, k: K, v: V, maxSize: int, cacheSize: V -> nat)
    requires WellFormed(s) && cacheSize(v) <= maxSize
    ensures var r := Put(s, k, v, maxSize, cacheSize);
      Get(r, k) == Some(v) && r.order[|r.order| - 1] == k
  {
    var t := Store(s.entries[k := v], RemoveKey(s.order, k) + [k]);
    PutBeforeTrim(s, k, v, cacheSize);
    TrimKeepsNewestIfFits(t, maxSize, cacheSize);
    PutOnlyEvicts(s, k, v, maxSize, cacheSize);
  }

  /** An entry larger than the pool is admitted and then evicted, with everything else. */
  lemma PutOversizedEvictsAll<K(!new), V>(s: Store<K, V>, k: K, v: V, maxSize: int, cacheSize: V -> nat)
    requires WellFormed(s) && cacheSize(v) > maxSize
    ensures Put(s, k, v, maxSize, cacheSize) == Empty()
  {
    var t := Store(s.entries[k := v], RemoveKey(s.order, k) + [k]);
    PutBeforeTrim(s, k, v, cacheSize);
    assert t.order[|t.order| - 1] == k && t.entries[k] == v;
    TrimDropsOversizedNewest(t, maxSize, cacheSize);
  }

  /** A trim empties the store when the most recent value alone exceeds the bound: the
      eviction of the eldest keys reaches it. */
  lemma TrimDropsOversizedNewest<K(!new), V>(s: Store<K, V>, maxSize: int, cacheSize: V -> nat)
    requires WellFormed(s) && s.order != []
    requires cacheSize(s.entries[s.order[|s.order| - 1]]) > maxSize
    ensures Trim(s, maxSize, cacheSize) == Empty()
  {
    var r := Trim(s, maxSize, cacheSize);
    var newest := s.order[|s.order| - 1];
    TrimKeepsOrderSuffix(s, maxSize, cacheSize);
    TrimFits(s, maxSize, cacheSize);
    if r.order != [] {
      assert r.order[|r.order| - 1] == newest;
      assert newest in r.entries;
      TrimKeepsValues(s, maxSize, cacheSize);
      assert r.entries[newest] == s.entries[newest];
      WeightAtLeastLast(r.order, r.entries, cacheSize);
    }
    NothingOrdered(r);
  }

  lemma NothingOrdered<K(!new), V>(s: Store<K, V>)
    requires WellFormed(s) && s.order == []
    ensures s == Empty()
  {
    assert s.entries == map[];
  }

  lemma WeightAtLeastLast<K(!new), V>(order: seq<K>, entries: map<K, V>, cacheSize: V -> nat)
    requires order != [] && forall x :: x in order ==> x in entries
    ensures Weight(order, entries, cacheSize) >= cacheSize(entries[order[|order| - 1]])
  {
    var n := |order| - 1;
    assert order == order[..n] + [order[n]];
    WeightAppend(order[..n], order[n], entries, cacheSize);
  }

  /** removeCache(k) deletes the entry for k only; every other key keeps its value and
      its place in the access order, and the size drops by k's cache size. */
  lemma RemoveOnlyThatKey<K(!new), V>(s: Store<K, V>, k: K, x: K, y: K, cacheSize: V -> nat)
    requires WellFormed(s) && x != k && y != k
    ensures WellFormed(Remove(s, k))
    ensures Get(Remove(s, k), k) == None
    ensures Get(Remove(s, k), x) == Get(s, x)
    ensures Before(Remove(s, k).order, x, y) <==> Before(s.order, x, y)
    ensures Size(Remove(s, k), cacheSize) == Size(s, cacheSize) - (if k in s.entries then cacheSize(s.entries[k]) else 0)
  {
    RemoveLowersSize(s, k, cacheSize);
    RemoveKeyKeepsOrder(s.order, k, x, y);
  }

  lemma {:induction false} RemoveKeyKeepsOrder<K(!new)>(order: seq<K>, k: K, x: K, y: K)
    requires x != k && y != k
    ensures Before(RemoveKey(order, k), x, y) <==> Before(order, x, y)
  {
    if order != [] {
      RemoveKeyKeepsOrder(order[1..], k, x, y);
      var r := RemoveKey(order, k);
      var t := RemoveKey(order[1..], k);
      BeforeTail(order, x, y);
      if r != [] {
        BeforeTail(r, x, y);
      }
      if order[0] == k {
        assert r == t;
      } else {
        assert r == [order[0]] + t && r[1..] == t;
        assert order[0] == x ==> (Before(r, x, y) <==> y in t);
        assert order[0] == x ==> (Before(order, x, y) <==> y in order[1..]);
      }
    }
  }

  /** x before y in a non-empty order: either x leads and y follows, or both are in the tail. */
  lemma BeforeTail<K(!new)>(order: seq<K>, x: K, y: K)
    requires order != []
    ensures Before(order, x, y) <==> (order[0] == x && y in order[1..]) || Before(order[1..], x, y)
  {
    if Before(order, x, y) {
      var i, j :| 0 <= i < j < |order| && order[i] == x && order[j] == y;
      if i > 0 {
        assert order[1..][i - 1] == x && order[1..][j - 1] == y;
      } else {
        assert order[1..][j - 1] == y;
      }
    }
    if order[0] == x && y in order[1..] {
      var j :| 0 <= j < |order[1..]| && order[1..][j] == y;
      assert order[j + 1] == y;
    }
    if Before(order[1..], x, y) {
      var i, j :| 0 <= i < j < |order[1..]| && order[1..][i] == x && order[1..][j] == y;
      assert order[i + 1] == x && order[j + 1] == y;
    }
  }

  // ---------------------------------------------------------------------------------
  // Least-recently-used order with unit costs

  lemma {:induction false} UnitWeight<K(!new), V>(order: seq<K>, entries: map<K, V>, cacheSize: V -> nat)
    requires forall x :: x in order ==> x in entries
    requires forall v :: cacheSize(v) == 1
    ensures Weight(order, entries, cacheSize) == |order|
  {
    if order != [] {
      UnitWeight(order[1..], entries, cacheSize);
    }
  }

  /** With every value of cost 1, a trim to a capacity keeps as many keys as fit. */
  lemma UnitTrimLength<K(!new), V>(s: Store<K, V>, capacity: nat, cacheSize: V -> nat)
    requires WellFormed(s) && capacity < |s.order|
    requires forall v :: cacheSize(v) == 1
    ensures |Trim(s, capacity, cacheSize).order| == capacity
  {
    var r := Trim(s, capacity, cacheSize);
    var m := |r.order|;
    TrimFits(s, capacity, cacheSize);
    UnitWeight(r.order, r.entries, cacheSize);
    assert m <= capacity;
    if m < capacity {
      var j := |s.order| - m - 1;
      TrimEvictsOnlyWhenOver(s, capacity, cacheSize);
      assert Weight(s.order[j..], s.entries, cacheSize) > capacity;
      UnitWeight(s.order[j..], s.entries, cacheSize);
    }
  }

  /** With every value of cost 1 and a capacity C >= 0, a trim keeps exactly the C most
      recently touched keys, in touch order. */
  lemma UnitTrimKeepsNewest<K(!new), V>(s: Store<K, V>, capacity: nat, cacheSize: V -> nat)
    requires WellFormed(s)
    requires forall v :: cacheSize(v) == 1
    ensures var keep := if |s.order| <= capacity then |s.order| else capacity;
      Trim(s, capacity, cacheSize).order == s.order[|s.order| - keep..]
  {
    if |s.order| <= capacity {
      UnitWeight(s.order, s.entries, cacheSize);
      TrimWithinBound(s, capacity, cacheSize);
      assert s.order[0..] == s.order;
    } else {
      TrimKeepsSuffix(s, capacity, cacheSize);
      UnitTrimLength(s, capacity, cacheSize);
    }
  }
}
