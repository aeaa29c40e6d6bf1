# infthink libs: caches, string and JSON helpers, message bus, base service

This project models the core of the infthink Android support library in Dafny.

- **The two-tier cache.** `LruCachePool` is a least-recently-used pool. Its total size is
  bounded by the sum of its values' cache sizes. `ExpiresCachePool` adds a
  soft-reference tier in front of that pool and refreshes entries that have expired. The
  keys and values it stores are the `TextCacheId`/`TextCacheable` and
  `BitmapCacheId`/`BitmapCacheable` pairs.
- **The string helpers.**
  - `StringUtils`: `appendUrl`, `toHexString`, `isEmpty` and `trimToEmpty`.
  - `Collections`: `deepToString`.
  - `JSONUtils`: dotted-path access into a parsed JSON value (`opt`), the null-to-default
    rule (`removeNull`), and the typed accessors.
- **`MessageManager`.** A process-wide bus. Objects register, and their annotated
  one-parameter methods are collected as receivers. A sent message travels as a
  broadcast, is queued on the UI or the background handler, and is then delivered to at
  most `responseCount` registered objects, in registration order.
- **`BaseService`.** The base service. After its initialisation step it registers with
  the bus, marks itself initialised and notifies its listeners.

The modules and what each holds:

- `Wrappers`: `Option`, `Outcome` and `Result`.
- `JavaLang`: the pieces of the Java platform the core relies on. These are 32-bit int
  wrap-around, decimal `Integer.toString`, `String.hashCode` over UTF-16 code units, the
  UTF-8 byte count, and `List.remove`.
- `LruCache`: the specification of `android.util.LruCache` as pure functions on a
  `Store`. A store is the entries and their access order, eldest first. The module proves
  the size bound, the eviction order and the put, get and remove facts about it.
- `CachePool`: the class `LruCachePool`, whose methods are proved against `LruCache`.
- `ExpiresCache`: the class `ExpiresCachePool`. It holds an `LruCachePool` (the Java class
  extends it) and a `soft` map from keys to soft references. A reference that the
  collector has cleared is `None`.
- `TextCache` and `BitmapCache`: the keys and values, and pool constructors for each.
- `StringUtils`, `Collections` and `JsonUtils`: the helpers.
- `Messaging`: the class `MessageManager`.
- `Service`: the class `BaseService`.

Several inputs come from outside the model and are parameters instead:

- **Downloads and decoders.** The pools receive the factory's outcome `made` as a
  parameter, and the expiring pool's `getCache` a second outcome `remade` for the call it
  makes after a stale value. The methods report how often the factory ran.
- **The clock.** `now` is a parameter.
- **Reflection.** `methodsOf` gives each object's declared methods as records.
- **Method invocation.** A delivery is recorded in the result instead of being invoked.

In Java the message manager keeps its state in static fields. Here one `MessageManager`
object holds that state, and its broadcast list and two handler queues are sequence
fields.

## Model

All source paths are under `src/com/infthink/libs/`.

| member | source | states |
|---|---|---|
| JavaLang.Int32 | src/com/infthink/libs/cache/expires/TextCacheId.java:35-40 | Java `int` arithmetic: the result is in the int range and congruent to the exact value modulo 2^32 |
| JavaLang.StringHashCode | src/com/infthink/libs/cache/expires/TextCacheId.java:38 | `String.hashCode` is an int: the 31-polynomial over the UTF-16 units with 32-bit wrap-around |
| JavaLang.NatToDigitsValue | src/com/infthink/libs/cache/expires/BitmapCacheId.java:25 | the decimal digits of n that string concatenation writes read back as n, with no leading zero when n > 0 |
| JavaLang.IntToStringInjective | src/com/infthink/libs/cache/expires/BitmapCacheId.java:21-41 | two ints with the same decimal text are the same int |
| JavaLang.IntToStringChars | src/com/infthink/libs/cache/expires/BitmapCacheId.java:21-41 | the decimal text of an int holds only '-' and digits, so never the bar or the 'x' that separate the parts of CACHE_ID |
| JavaLang.Utf8LengthBounds | src/com/infthink/libs/cache/expires/TextCacheable.java:28-31 | `getBytes().length` of a text is between its length and four times its length, and equals its length for ASCII text |
| JavaLang.ListRemove | src/com/infthink/libs/base/BaseService.java:76-81 | `List.remove(x)` shortens the list by one when x is in it, leaves it unchanged otherwise, and adds nothing |
| JavaLang.ListRemoveUnique | src/com/infthink/libs/common/message/MessageManager.java:212-226 | in a list without repeats, removing x leaves exactly the other elements and still no repeats |
| LruCache.RemoveKey | src/com/infthink/libs/cache/LruCachePool.java:28-31 | removing a key from the access order keeps exactly the other keys |
| LruCache.RemoveKeyDistinct | src/com/infthink/libs/cache/LruCachePool.java:28-31 | removing a key keeps the access order free of repeats |
| LruCache.Trim | src/com/infthink/libs/cache/LruCachePool.java:12-18 | `trimToSize` leaves a well-formed store, with every resident key listed once in the access order |
| LruCache.WeightAppend | src/com/infthink/libs/cache/LruCachePool.java:43-46 | appending a key to the order adds that value's `sizeOf` to the total size |
| LruCache.WeightRemoveKey | src/com/infthink/libs/cache/LruCachePool.java:43-46 | removing a key from the order subtracts its value's `sizeOf`, and subtracts nothing when the key is absent |
| LruCache.WeightFrame | src/com/infthink/libs/cache/LruCachePool.java:43-46 | the size depends only on the values of the listed keys |
| LruCache.TouchKeepsSize | src/com/infthink/libs/cache/LruCachePool.java:23-26 | a hit keeps the entries and the size, and makes the key the most recently used |
| LruCache.Get | src/com/infthink/libs/cache/LruCachePool.java:23-26 | the resident value of a key, or null |
| LruCache.Touch | src/com/infthink/libs/cache/LruCachePool.java:23-26 | a hit moves the key to the most recently used end |
| LruCache.Put | src/com/infthink/libs/cache/LruCachePool.java:48-51 | the value replaces the key's entry, the key becomes newest, and the pool is trimmed to its bound |
| LruCache.Remove | src/com/infthink/libs/cache/LruCachePool.java:28-31 | the key's entry and its place in the order are dropped |
| LruCache.Empty | src/com/infthink/libs/cache/LruCachePool.java:33-36 | the store with no entries |
| LruCache.AppendFreshDistinct | src/com/infthink/libs/cache/LruCachePool.java:48-51 | appending a key not yet in the order keeps the order free of repeats |
| LruCache.PutBeforeTrim | src/com/infthink/libs/cache/LruCachePool.java:48-51 | before trimming, a put is well formed and its size is the old size minus the replaced value's size plus the new value's size |
| LruCache.RemoveLowersSize | src/com/infthink/libs/cache/LruCachePool.java:28-31 | remove drops the key's entry and lowers the size by its value's size, or by nothing when absent |
| LruCache.TrimKeepsSuffix | src/com/infthink/libs/cache/LruCachePool.java:12-18 | trimming keeps a newest-end suffix of the access order, with the same values |
| LruCache.TrimKeepsOrderSuffix | src/com/infthink/libs/cache/LruCachePool.java:12-18 | the order after trimming is a suffix of the order before |
| LruCache.TrimKeepsValues | src/com/infthink/libs/cache/LruCachePool.java:12-18 | every entry left after trimming holds the value it held before |
| LruCache.TrimFits | src/com/infthink/libs/cache/LruCachePool.java:12-18 | after trimming, the pool is empty or its size is at most the bound |
| LruCache.TrimEvictsOnlyWhenOver | src/com/infthink/libs/cache/LruCachePool.java:12-18 | each eldest entry evicted was evicted while the size of what remained was over the bound |
| LruCache.TrimEvictsEldest | src/com/infthink/libs/cache/LruCachePool.java:12-18 | trimming evicts eldest first and only while over the bound, leaving a fitting suffix with unchanged values |
| LruCache.TrimBound | src/com/infthink/libs/cache/LruCachePool.java:12-18 | with a bound of at least 0, the size after trimming never exceeds the bound |
| LruCache.TrimNegativeEmpties | src/com/infthink/libs/cache/LruCachePool.java:33-36 | trimming to -1, as `evictAll` does, empties the pool |
| LruCache.EvictEldest | src/com/infthink/libs/cache/LruCachePool.java:12-18 | one eviction step removes the eldest entry and its size, and trimming from there gives the same result |
| LruCache.TrimWithinBound | src/com/infthink/libs/cache/LruCachePool.java:12-18 | a pool that already fits is not changed by trimming |
| LruCache.TrimKeepsNewestIfFits | src/com/infthink/libs/cache/LruCachePool.java:12-18 | when the newest value alone fits, trimming keeps it as the newest |
| LruCache.PutWithinBound | src/com/infthink/libs/cache/ICachePool.java:26-31 | after a put the pool is well formed and its size is at most maxSize |
| LruCache.PutOnlyEvicts | src/com/infthink/libs/cache/ICachePool.java:26-31 | after a put every entry is either the new one or an old entry with its old value |
| LruCache.PutThenGet | src/com/infthink/libs/cache/ICachePool.java:12-31 | after putting a value that fits, getting the key returns that value and the key is the newest |
| LruCache.PutOversizedEvictsAll | src/com/infthink/libs/cache/LruCachePool.java:48-51 | putting a value larger than maxSize evicts everything, the value included |
| LruCache.TrimDropsOversizedNewest | src/com/infthink/libs/cache/LruCachePool.java:12-18 | when the newest value alone exceeds the bound, trimming empties the pool |
| LruCache.WeightAtLeastLast | src/com/infthink/libs/cache/LruCachePool.java:43-46 | the total size is at least the newest value's size |
| LruCache.RemoveOnlyThatKey | src/com/infthink/libs/cache/ICachePool.java:20-24 | remove drops only that key: other keys keep their values and relative order, and the size falls by the removed size |
| LruCache.RemoveKeyKeepsOrder | src/com/infthink/libs/cache/LruCachePool.java:28-31 | removing k keeps the order between any two other keys, in both directions |
| LruCache.BeforeTail | src/com/infthink/libs/cache/LruCachePool.java:28-31 | x is before y in an order iff x is first with y later, or x is before y in the rest |
| LruCache.UnitWeight | src/com/infthink/libs/cache/LruCachePool.java:43-46 | when every value has size 1, the size is the number of entries |
| LruCache.UnitTrimLength | src/com/infthink/libs/cache/LruCachePool.java:12-18 | with unit sizes, trimming more entries than the capacity leaves exactly capacity entries |
| LruCache.UnitTrimKeepsNewest | src/com/infthink/libs/cache/LruCachePool.java:12-18 | with unit sizes, trimming keeps exactly the newest min(count, capacity) keys |
| CachePool.LruCachePool.constructor | src/com/infthink/libs/cache/LruCachePool.java:12-18 | a new pool with a positive bound is empty, with size 0 and that bound |
| CachePool.NewLruCachePool | src/com/infthink/libs/cache/LruCachePool.java:12-18 | a bound that is not positive fails with `IllegalMaxSize`, the `IllegalArgumentException` of `LruCache`; any other gives a fresh, empty pool with that bound |
| CachePool.LruCachePool.SizeOf | src/com/infthink/libs/cache/LruCachePool.java:43-46 | `sizeOf` is 0 for a null value and the value's `getCacheSize` otherwise |
| CachePool.LruCachePool.Lookup | src/com/infthink/libs/cache/LruCachePool.java:23-26 | a lookup returns the stored value or none, moves a hit to the newest end, and keeps the size |
| CachePool.LruCachePool.TrimToSize | src/com/infthink/libs/cache/LruCachePool.java:12-18 | the eviction loop leaves the store that `Trim` specifies |
| CachePool.LruCachePool.GetCache | src/com/infthink/libs/cache/LruCachePool.java:23-41 | a hit returns the value and touches it without creating; a miss returns what `create` made and stores it with put |
| CachePool.LruCachePool.PutCache | src/com/infthink/libs/cache/LruCachePool.java:48-51 | a null value fails with `NullValue` and changes nothing; any other replaces or adds the entry, trims, and keeps the new value unless it alone exceeds the bound |
| CachePool.LruCachePool.RemoveCache | src/com/infthink/libs/cache/LruCachePool.java:28-31 | remove drops exactly that key and lowers the size by its value's size |
| CachePool.LruCachePool.ClearAllCache | src/com/infthink/libs/cache/LruCachePool.java:33-36 | `evictAll` leaves the pool empty with size 0 |
| ExpiresCache.ExpiresCachePool.constructor | src/com/infthink/libs/cache/expires/ExpiresCachePool.java:18-21 | a new pool with a positive bound has an empty bounded tier and an empty soft map |
| ExpiresCache.NewExpiresCachePool | src/com/infthink/libs/cache/expires/ExpiresCachePool.java:18-21 | a bound that is not positive fails with `IllegalMaxSize`; any other gives a fresh pool whose two tiers are empty |
| ExpiresCache.ExpiresCachePool.Reclaim | src/com/infthink/libs/cache/expires/ExpiresCachePool.java:44-50 | the collector clearing a soft reference leaves the key mapped to a cleared reference |
| ExpiresCache.ExpiresCachePool.ClearAllCache | src/com/infthink/libs/cache/expires/ExpiresCachePool.java:23-27 | both tiers are emptied |
| ExpiresCache.ExpiresCachePool.RemoveCache | src/com/infthink/libs/cache/expires/ExpiresCachePool.java:29-33 | the key leaves both tiers and nothing else changes |
| ExpiresCache.ExpiresCachePool.PutCache | src/com/infthink/libs/cache/expires/ExpiresCachePool.java:35-40 | the soft tier maps the key to the new reference, which holds nothing for a null value; the bounded tier then puts a non-null value and refuses a null one with `NullValue`, unchanged |
| ExpiresCache.ExpiresCachePool.Create | src/com/infthink/libs/cache/expires/ExpiresCachePool.java:42-57 | a live reference in the soft tier is returned without calling the factory; otherwise the factory's value is returned and remembered when not null |
| ExpiresCache.ExpiresCachePool.BoundedGet | src/com/infthink/libs/cache/expires/ExpiresCachePool.java:59-62 | the inherited `getCache`. It returns the tier value and calls the factory only when neither tier has the key. The soft map gains the factory's non-null value, the bounded tier is touched on a hit and gets a put of a created value, and other keys are untouched |
| ExpiresCache.ExpiresCachePool.Refresh | src/com/infthink/libs/cache/expires/ExpiresCachePool.java:66-68 | an expired entry is removed from both tiers and fetched again, so the factory's new value is returned, remembered and put into the bounded tier after the removal |
| ExpiresCache.ExpiresCachePool.GetCache | src/com/infthink/libs/cache/expires/ExpiresCachePool.java:59-75 | a miss gives null. A fresh value is returned as is. A stale value is replaced by what the second factory call makes, which may differ from the first. The factory call count and both tiers' new contents are stated for each path, and only the key's own entries change |
| ExpiresCache.ExpiresCachePool.Revalidate | src/com/infthink/libs/cache/expires/ExpiresCachePool.java:63-74 | given the first get's value: a null or a value that is not stale is returned and nothing changes; a stale one is replaced in both tiers by the second factory call's result, which is returned |
| ExpiresCache.AfterGet | src/com/infthink/libs/cache/LruCachePool.java:23-26 | the bounded tier after `LruCache.get`: a hit is touched, a created value is put, a null stores nothing; the result is well formed |
| ExpiresCache.AfterCreate | src/com/infthink/libs/cache/expires/ExpiresCachePool.java:42-57 | the soft map after the create hook: a factory call with a non-null result remembers it, anything else leaves the map as it was |
| ExpiresCache.AfterRetry | src/com/infthink/libs/cache/expires/ExpiresCachePool.java:66-68 | the bounded tier after the stale path's remove and second get; the result is well formed |
| TextCache.NewTextCacheable | src/com/infthink/libs/cache/expires/TextCacheable.java:19-22 | a text cacheable keeps the text read and expires TIME_OUT = 300000 ms after creation |
| TextCache.CacheSize | src/com/infthink/libs/cache/expires/TextCacheable.java:28-31 | a null text costs 0; otherwise the UTF-8 byte count, between the length and four times it |
| TextCache.ExpiresExactly | src/com/infthink/libs/cache/expires/TextCacheable.java:33-40 | a text made at time c is expired at now iff now > c + 300000 |
| TextCache.IsExpires | src/com/infthink/libs/cache/expires/TextCacheable.java:33-40 | stale when the clock is past the deadline |
| TextCache.StaysExpired | src/com/infthink/libs/cache/expires/TextCacheable.java:33-40 | once expired, a text stays expired at every later time |
| TextCache.FreshWhenMade | src/com/infthink/libs/cache/expires/TextCacheable.java:19-40 | a text is never expired at the time it is made |
| TextCache.HashCode | src/com/infthink/libs/cache/expires/TextCacheId.java:34-40 | `hashCode` is an int |
| TextCache.EqualsIsUrlEquality | src/com/infthink/libs/cache/expires/TextCacheId.java:34-57 | two ids are equal iff their urls are equal (null equal to null); this is value equality, and equal ids hash equally |
| TextCache.Equals | src/com/infthink/libs/cache/expires/TextCacheId.java:42-57 | null urls are equal to each other; otherwise the urls must be equal strings |
| TextCache.CreateCache | src/com/infthink/libs/cache/expires/TextCacheId.java:18-32 | a failed download or an unread text gives null; otherwise the result is a new cacheable of the text read |
| TextCache.CreatedIsFresh | src/com/infthink/libs/cache/expires/TextCacheId.java:18-32 | a created text is fresh at creation and expires TIME_OUT later |
| TextCache.NewTextCachePool | src/com/infthink/libs/cache/expires/ExpiresCachePool.java:18-21 | a bound that is not positive fails with `IllegalMaxSize`; any other gives an empty text pool that uses the text cacheable's size and expiry |
| BitmapCache.FromStream | src/com/infthink/libs/cache/expires/BitmapCacheable.java:22-24 | the cacheable holds what decoding the stream within the bounds gave |
| BitmapCache.FromPath | src/com/infthink/libs/cache/expires/BitmapCacheable.java:31-33 | the cacheable holds what decoding the file within the bounds gave |
| BitmapCache.FromResource | src/com/infthink/libs/cache/expires/BitmapCacheable.java:40-42 | the cacheable holds what decoding the resource within the bounds gave |
| BitmapCache.CacheSize | src/com/infthink/libs/cache/expires/BitmapCacheable.java:48-51 | no bitmap costs 0; otherwise the bitmap's byte count |
| BitmapCache.HashCode | src/com/infthink/libs/cache/expires/BitmapCacheId.java:71-77 | `hashCode` is an int |
| BitmapCache.CreateCache | src/com/infthink/libs/cache/expires/BitmapCacheId.java:43-69 | a path is decoded first, else a url is downloaded and decoded (a failed download gives null), else the resource; a result without a bitmap is null |
| BitmapCache.SourceKindIsNotPartOfIdentity | src/com/infthink/libs/cache/expires/BitmapCacheId.java:21-41 | ids are equal when their identity texts are. So a path id equals the url id of the same text, and a resource id equals the path id of its decimal text |
| BitmapCache.EqualsHashEqually | src/com/infthink/libs/cache/expires/BitmapCacheId.java:71-94 | equal ids have equal hash codes |
| BitmapCache.TagInjective | src/com/infthink/libs/cache/expires/BitmapCacheId.java:21-41 | the identity text determines the source text, the width and the height |
| BitmapCache.CacheId | src/com/infthink/libs/cache/expires/BitmapCacheId.java:21-41 | CACHE_ID: the source text (the path, the url, or the resource id in decimal), a bar, then width x height |
| BitmapCache.Equals | src/com/infthink/libs/cache/expires/BitmapCacheId.java:79-94 | two ids are equal iff their CACHE_ID strings are |
| BitmapCache.IsExpires | src/com/infthink/libs/cache/expires/BitmapCacheable.java:53-56 | a bitmap never goes stale |
| BitmapCache.BoundsInjective | src/com/infthink/libs/cache/expires/BitmapCacheId.java:25 | the "WxH" text determines the width and the height |
| BitmapCache.EqualsSameKind | src/com/infthink/libs/cache/expires/BitmapCacheId.java:79-94 | two ids of the same kind are equal iff their bounds match and their sources render the same |
| BitmapCache.Key | src/com/infthink/libs/cache/expires/BitmapCacheId.java:79-94 | an id's pool key is matched by exactly the ids equal to it |
| BitmapCache.NewBitmapCachePool | src/com/infthink/libs/cache/expires/BitmapCacheable.java:48-56 | a bound that is not positive fails with `IllegalMaxSize`; any other gives an empty bitmap pool that charges byte counts and never expires its entries |
| BitmapCache.GetBitmap | src/com/infthink/libs/cache/expires/ExpiresCachePool.java:59-75 | since bitmaps never expire, a get returns the tier value and calls the factory at most once; the soft map gains a created bitmap and the bounded tier is touched or gets the created bitmap, as the inherited get does |
| StringUtils.AppendUrl | src/com/infthink/libs/common/utils/StringUtils.java:51-61 | a null url stays null; otherwise the result extends the url, is longer, and contains '?' |
| StringUtils.AppendUrlSeparator | src/com/infthink/libs/common/utils/StringUtils.java:51-61 | without a '?' the args follow "?", with one they follow "&" |
| StringUtils.AppendUrlTwice | src/com/infthink/libs/common/utils/StringUtils.java:51-61 | appending a then b to a url without a query gives url?a&b |
| StringUtils.AppendUrlExamples | src/com/infthink/libs/common/utils/StringUtils.java:38-50 | the two documented examples |
| StringUtils.Unsigned | src/com/infthink/libs/common/utils/StringUtils.java:31-33 | a byte's unsigned value is in 0..255 |
| StringUtils.ByteHexIsUnsigned | src/com/infthink/libs/common/utils/StringUtils.java:31-33 | the shift-and-mask of a sign-extended byte gives the two hex digits of its unsigned value |
| StringUtils.HexValue | src/com/infthink/libs/common/utils/StringUtils.java:32-33 | a hex digit's value is below 16 |
| StringUtils.HexDigitValue | src/com/infthink/libs/common/utils/StringUtils.java:32-33 | `Integer.toHexString` of 0..15 is one lower-case hex digit that reads back as the number |
| StringUtils.HexShape | src/com/infthink/libs/common/utils/StringUtils.java:27-36 | the text has two lower-case hex digits per byte |
| StringUtils.HexRoundTrip | src/com/infthink/libs/common/utils/StringUtils.java:27-36 | reading the hex text back in pairs gives the unsigned byte values |
| StringUtils.HexInjective | src/com/infthink/libs/common/utils/StringUtils.java:27-36 | distinct byte arrays have distinct hex texts |
| StringUtils.UnsignedsInjective | src/com/infthink/libs/common/utils/StringUtils.java:27-36 | distinct byte arrays have distinct unsigned values |
| StringUtils.ToHexString | src/com/infthink/libs/common/utils/StringUtils.java:27-36 | the loop builds the hex text of the bytes, two characters per byte |
| StringUtils.TrimLeftCuts | src/com/infthink/libs/common/utils/StringUtils.java:75-77 | the front scan of `trim` drops only blanks and stops at a non-blank |
| StringUtils.TrimRightCuts | src/com/infthink/libs/common/utils/StringUtils.java:75-77 | the back scan of `trim` drops only blanks and stops at a non-blank |
| StringUtils.TrimCutsBlankEnds | src/com/infthink/libs/common/utils/StringUtils.java:75-77 | `trim` returns a slice of the text, bounded by blanks on both sides, that starts and ends with non-blanks |
| StringUtils.CutEnds | src/com/infthink/libs/common/utils/StringUtils.java:75-77 | cutting blanks from the front and then the back leaves a slice with only blanks around it |
| StringUtils.TrimIdempotent | src/com/infthink/libs/common/utils/StringUtils.java:75-77 | trimming twice is trimming once |
| StringUtils.TrimToEmpty | src/com/infthink/libs/common/utils/StringUtils.java:63-77 | null and "" give ""; any other text gives its trim |
| StringUtils.IsEmpty | src/com/infthink/libs/common/utils/StringUtils.java:67-69 | null or a text of length 0 |
| StringUtils.IsEmptyIsLengthOnly | src/com/infthink/libs/common/utils/StringUtils.java:67-77 | isEmpty holds exactly for null and ""; a text of blanks is not empty, yet trimToEmpty gives "" |
| StringUtils.TrimToEmptyOfString | src/com/infthink/libs/common/utils/StringUtils.java:67-77 | the empty check only guards against null: every non-null text gives its trim |
| Collections.PrefixedIsJoined | src/com/infthink/libs/common/utils/Collections.java:15-19 | the buffer is "&" followed by the joined pairs, so `substring(1)` is the joined pairs |
| Collections.PrefixedSnoc | src/com/infthink/libs/common/utils/Collections.java:16-18 | each loop round appends "&name=value" |
| Collections.DeepToString | src/com/infthink/libs/common/utils/Collections.java:11-20 | null or empty gives ""; otherwise the pairs as name=value joined by '&', in order, with null as "null" |
| Collections.JoinedEnds | src/com/infthink/libs/common/utils/Collections.java:11-20 | the text starts with the first pair and ends with the last |
| Collections.JoinedLength | src/com/infthink/libs/common/utils/Collections.java:11-20 | the length is the rendered pairs' lengths plus one '&' between each two |
| Collections.DeepToStringExample | src/com/infthink/libs/common/utils/Collections.java:17 | a null value is written as "null" |
| JsonUtils.SplitAll | src/com/infthink/libs/common/utils/JSONUtils.java:138 | the pieces between the dots hold no dot, and there is at least one |
| JsonUtils.DropTrailingEmpty | src/com/infthink/libs/common/utils/JSONUtils.java:138 | `split` drops trailing empty pieces and keeps the rest in order |
| JsonUtils.Split | src/com/infthink/libs/common/utils/JSONUtils.java:138 | no path segment holds a dot |
| JsonUtils.RadixOf | src/com/infthink/libs/common/utils/JSONUtils.java:148 | the radix prefix never runs past the text |
| JsonUtils.Decode | src/com/infthink/libs/common/utils/JSONUtils.java:148 | `Integer.decode` yields an int or throws |
| JsonUtils.DecimalRadix | src/com/infthink/libs/common/utils/JSONUtils.java:148 | decimal digits without a leading zero are read in radix 10 |
| JsonUtils.DecimalValueIn | src/com/infthink/libs/common/utils/JSONUtils.java:148 | decimal digits read in radix 10 give their decimal value |
| JsonUtils.SignedDecimal | src/com/infthink/libs/common/utils/JSONUtils.java:148 | digits read in radix 10 give their value, negated after '-', when that is an int |
| JsonUtils.DecodeUnsigned | src/com/infthink/libs/common/utils/JSONUtils.java:148 | decimal digits decode to their value when it is an int |
| JsonUtils.DecodeNegated | src/com/infthink/libs/common/utils/JSONUtils.java:148 | '-' and decimal digits decode to the negated value when it is an int |
| JsonUtils.DecodeIntToString | src/com/infthink/libs/common/utils/JSONUtils.java:148 | every int's decimal text decodes back to that int |
| JsonUtils.DecodeHexExamples | src/com/infthink/libs/common/utils/JSONUtils.java:148 | "0x1F" decodes to 31 and "#10" to 16 |
| JsonUtils.DecodeOctalAndSignExamples | src/com/infthink/libs/common/utils/JSONUtils.java:148 | "010" decodes to 8 and "-1" to -1 |
| JsonUtils.DecodeRejects | src/com/infthink/libs/common/utils/JSONUtils.java:148-156 | a word, "" and a doubled sign are not numbers, so the step gives JSON null |
| JsonUtils.ValueOf | src/com/infthink/libs/common/utils/JSONUtils.java:40-44 | `valueOf` wraps the value given, null included |
| JsonUtils.RemoveNullReplaces | src/com/infthink/libs/common/utils/JSONUtils.java:170-176 | exactly null, JSON null and a string spelling "null" in any case give the default; every other value is kept |
| JsonUtils.RemoveNull | src/com/infthink/libs/common/utils/JSONUtils.java:170-176 | null, JSON null and a string spelling "null" give the default, every other value itself |
| JsonUtils.Member | src/com/infthink/libs/common/utils/JSONUtils.java:140-143 | a member found has that key; none is found only when no member has the key |
| JsonUtils.Opt | src/com/infthink/libs/common/utils/JSONUtils.java:133-164 | the loop walks the split path and replaces null by the default; a null path or value falls back to `opt(default)` |
| JsonUtils.OptDefault | src/com/infthink/libs/common/utils/JSONUtils.java:166-168 | a null value gives the default; a value that is not null-like is returned |
| JsonUtils.AsString | src/com/infthink/libs/common/utils/JSONUtils.java:94-99 | null gives the default; a string gives itself; any other value gives its JSON text |
| JsonUtils.AsJSONObject | src/com/infthink/libs/common/utils/JSONUtils.java:101-106 | an object gives itself; anything else gives the default |
| JsonUtils.AsJSONArray | src/com/infthink/libs/common/utils/JSONUtils.java:108-113 | an array gives itself; anything else gives the default |
| JsonUtils.WalkConcat | src/com/infthink/libs/common/utils/JSONUtils.java:139-162 | walking a + b is walking a and then b |
| JsonUtils.Step | src/com/infthink/libs/common/utils/JSONUtils.java:140-163 | one segment: an object member by key, an array element by decimal index, JSON null when missing |
| JsonUtils.Walk | src/com/infthink/libs/common/utils/JSONUtils.java:139-162 | steps segment by segment while the value is an object or array |
| JsonUtils.OptSpec | src/com/infthink/libs/common/utils/JSONUtils.java:133-164 | opt: a null path or value gives removeNull of the value; otherwise the walk along the split path, then removeNull |
| JsonUtils.Encode | src/com/infthink/libs/common/utils/JSONUtils.java:94-99 | the JSON text of a value, with strings quoted and escaped and members in stored order |
| JsonUtils.PrimitiveStops | src/com/infthink/libs/common/utils/JSONUtils.java:158-161 | a primitive stops the walk: the rest of the path is ignored |
| JsonUtils.DeadEndGivesDefault | src/com/infthink/libs/common/utils/JSONUtils.java:140-163 | a missing member, a bad index or a non-number segment gives JSON null and then the default |
| JsonUtils.NullPathOrValue | src/com/infthink/libs/common/utils/JSONUtils.java:134-136 | a null value gives the default; a null path gives `opt(default)` |
| JsonUtils.SplitAllNoDot | src/com/infthink/libs/common/utils/JSONUtils.java:138 | a dot-free string splits into itself |
| JsonUtils.SplitAllAfterHead | src/com/infthink/libs/common/utils/JSONUtils.java:138 | splitting "head.rest" gives head followed by the pieces of rest |
| JsonUtils.SplitTwoSegments | src/com/infthink/libs/common/utils/JSONUtils.java:138 | "a.b" splits into a and b |
| JsonUtils.ExamplePaths | src/com/infthink/libs/common/utils/JSONUtils.java:15-22 | the documented paths split as expected |
| JsonUtils.OptReaches | src/com/infthink/libs/common/utils/JSONUtils.java:133-164 | a walk that reaches a non-null value returns it |
| JsonUtils.ExampleId | src/com/infthink/libs/common/utils/JSONUtils.java:15 | opt("id") of the documented object is 1 |
| JsonUtils.ExampleCategoryObject | src/com/infthink/libs/common/utils/JSONUtils.java:17 | opt("category") is the inner object |
| JsonUtils.ExampleNested | src/com/infthink/libs/common/utils/JSONUtils.java:17-18 | `valueOf` of the category, then opt("id"), is 10 |
| JsonUtils.ExampleCategoryName | src/com/infthink/libs/common/utils/JSONUtils.java:20 | asString(opt("category.name")) is "category name" |
| JsonUtils.ExampleFlag | src/com/infthink/libs/common/utils/JSONUtils.java:22 | asString(opt("flag.1")) is "flag2" |
| Messaging.HandlerTableOk | src/com/infthink/libs/common/message/MessageManager.java:185-201 | the scan succeeds iff every annotated method has one parameter and no two of them share a parameter class |
| Messaging.HandlerTable | src/com/infthink/libs/common/message/MessageManager.java:185-201 | the scan of the declared methods, in order, that builds the receiver table or stops at the first bad method |
| Messaging.HandlerTableContents | src/com/infthink/libs/common/message/MessageManager.java:185-202 | a successful scan maps each annotated method's parameter class to that method, and holds nothing else |
| Messaging.HandlerTableFailure | src/com/infthink/libs/common/message/MessageManager.java:189-198 | a failed scan names either a method with the wrong parameter count or two methods for one class |
| Messaging.HandlerTableStopsAtFailure | src/com/infthink/libs/common/message/MessageManager.java:185-201 | the first failure ends the scan |
| Messaging.ScanHandlers | src/com/infthink/libs/common/message/MessageManager.java:185-201 | the loop over the declared methods computes the receiver table or the first failure |
| Messaging.Budget | src/com/infthink/libs/common/message/MessageManager.java:100-103 | a response count of -1 means Integer.MAX_VALUE; any other count is kept |
| Messaging.DispatchIsPrefix | src/com/infthink/libs/common/message/MessageManager.java:109-125 | dispatch delivers the first min(count, matches) deliveries, and none when the count is not positive |
| Messaging.MatchingExact | src/com/infthink/libs/common/message/MessageManager.java:109-125 | the matches are exactly the registered objects with a receiver for the message's class, with that receiver's method |
| Messaging.Matching | src/com/infthink/libs/common/message/MessageManager.java:109-125 | the deliveries to every registered object with a receiver for the message's class, in registration order |
| Messaging.Dispatch | src/com/infthink/libs/common/message/MessageManager.java:109-125 | the deliveries of the loop: in registration order, one per matching object, while the count is positive |
| Messaging.MatchingSplits | src/com/infthink/libs/common/message/MessageManager.java:109-125 | the matches of two lists of objects, in turn, are the matches of the joined list |
| Messaging.MatchingLength | src/com/infthink/libs/common/message/MessageManager.java:109-125 | each object receives at most once |
| Messaging.Unlimited | src/com/infthink/libs/common/message/MessageManager.java:100-125 | a count of -1 delivers to every match; any other count of 0 or below delivers nothing |
| Messaging.AppendUnique | src/com/infthink/libs/common/message/MessageManager.java:179-182 | adding an object that is not registered keeps the registrations free of repeats |
| Messaging.MessageManager.constructor | src/com/infthink/libs/common/message/MessageManager.java:40-50 | a new manager can be initialised and holds nothing |
| Messaging.MessageManager.Init | src/com/infthink/libs/common/message/MessageManager.java:56-91 | a second init fails and changes nothing; the first one starts with no registrations and an empty background queue, and keeps the UI messages already posted to the main looper |
| Messaging.MessageManager.Close | src/com/infthink/libs/common/message/MessageManager.java:155-167 | closing an uninitialised manager fails; otherwise it can init again and the background queue is gone |
| Messaging.MessageManager.Register | src/com/infthink/libs/common/message/MessageManager.java:173-206 | it fails when not initialised or already registered; otherwise it appends the object and records its receivers, or fails with the scan's error but stays registered |
| Messaging.MessageManager.Unregister | src/com/infthink/libs/common/message/MessageManager.java:212-226 | it fails when not initialised or not registered; otherwise exactly that object and its receivers go |
| Messaging.MessageManager.SendMessage | src/com/infthink/libs/common/message/MessageManager.java:136-150 | it fails when not initialised; otherwise it broadcasts exactly one intent with the message, the count and the thread choice |
| Messaging.MessageManager.OnReceive | src/com/infthink/libs/common/message/MessageManager.java:231-253 | it fails unless initialised; it fails with `NullMessage`, queueing nothing, on a null message, whose class the debug log asks for; otherwise a message is queued on the chosen thread's queue iff the count is not 0 and a wrapper is present |
| Messaging.MessageManager.ExecuteMessage | src/com/infthink/libs/common/message/MessageManager.java:93-129 | it fails when not initialised or on a null message; otherwise the loop delivers what `Dispatch` specifies for the count |
| Service.BaseService.constructor | src/com/infthink/libs/base/BaseService.java:61-64 | a new service has no listeners and is not initialised |
| Service.BaseService.RegisterListener | src/com/infthink/libs/base/BaseService.java:66-74 | a listener already present is refused; otherwise it is appended and notified at once iff the service is initialised |
| Service.BaseService.UnregisterListener | src/com/infthink/libs/base/BaseService.java:76-81 | a listener not present is refused; otherwise exactly that listener is removed |
| Service.BaseService.OnProgressUpdate | src/com/infthink/libs/base/BaseService.java:44-50 | the service registers with the manager. If that throws, it stays uninitialised and nobody is notified. Otherwise it is initialised and every listener is notified in order. The manager's registries are as Register leaves them; its `canInit`, broadcasts and queues are unchanged |
| Service.BaseService.OnDestroy | src/com/infthink/libs/base/BaseService.java:101-107 | only an initialised service unregisters from the manager, and the manager's failures pass through. On those failures, and when the service is not initialised, the manager's registries are unchanged; its `canInit`, broadcasts and queues are unchanged on every path |

## Left out

- Downloads (`HttpDirectMemoryDownload`), `IOUtils.readString` and the bitmap decoders
  are not part of this model. They are parameters: functions on values, or the factory
  outcome `made` that the pools receive.
- `System.currentTimeMillis` is the parameter `now`.
- **Soft references.** Garbage collection is the `Reclaim` operation, which the
  environment may call at any time. When the collector runs is not modelled.
- **Locks and threads.** The pools' `ConcurrentHashMap`, the `LruCache` lock and the
  manager's read/write lock exist only for concurrency, which is not modelled. Each
  operation is modelled as atomic.
- **Handler threads and broadcasts.** The handler threads and the local broadcast manager
  are the sequence fields `broadcasts`, `uiQueue` and `backgroundQueue`. The model only
  appends to them. The environment takes the head of `broadcasts` and hands it to
  `OnReceive`, and takes the head of `uiQueue` or `backgroundQueue` and hands it to
  `ExecuteMessage`; removing that head is not modelled. Delivery order between the queues,
  and the point at which the environment runs them, are not modelled either.
- **Reflection.** `getDeclaredMethods` is the record list `methodsOf(o)`, in an order the
  environment chooses, since Java leaves that order unspecified. Which method wins a
  duplicate therefore depends on that order as given.
- **Invocation.** Invoking a receiving method is recorded as a `Delivery`. What the method
  does, and a receiver that re-enters the manager, are not modelled. The
  `RuntimeException` that wraps a failed invocation is left out as well.
- **Message identity.** A message is modelled only by its class name. Its other contents do
  not influence dispatch.
- Messaging.MessageManager.OnReceive: takes the message wrapper as an `Option`. A foreign
  intent whose extra is not a `MessageWrapper` (a `ClassCastException` in Java) is not
  modelled.
- Service.BaseService.OnProgressUpdate: the background task that calls `onInit` and then
  `publishProgress` is not modelled. The task's cancel in `onDestroy` is not modelled
  either. The environment calls `OnProgressUpdate` directly.
- **ICachePool.** There is no interface type: `ICachePool`'s four operations are stated on
  both pool classes, and the contract-level facts are lemmas of `LruCache`. `ICacheId` and
  `ICacheable` are the keys and values the pool classes are generic over.
- **Cache sizes.** `getCacheSize` is a `nat`. A negative size, which
  `android.util.LruCache` rejects with an exception, is excluded by that type. The
  `int` overflow of a running size total is not modelled.
- CachePool.LruCachePool.constructor: requires a positive bound, because a Dafny constructor
  cannot fail. `NewLruCachePool` is the call that models the `IllegalArgumentException`.
- ExpiresCache.ExpiresCachePool.constructor: requires a positive bound, because a Dafny
  constructor cannot fail. `NewExpiresCachePool` is the call that models the
  `IllegalArgumentException`.
- **Null keys.** Keys are never null. `LruCache` throws on a null key, and that path is not
  modelled; a null value is.
- LruCache.UnitTrimKeepsNewest: is stated only for cache sizes that are 1 for every
  value, the count-bounded use of the pool. The general statement is `TrimEvictsEldest`.
- JsonUtils.Decode: reads digits with `Character.digit` limited to ASCII. Non-ASCII Unicode
  digits, which `Integer.decode` also accepts, are not modelled.
- **JSON numbers.** Numbers are integers. Doubles and longs and their `toString` are not
  modelled, and neither is `parse` (the `JSONTokener`). `asInteger`, `asFloat` and
  `asDouble` are not part of this model.
- JsonUtils.AsString: for objects and arrays it uses `Encode`, which writes members in their
  stored order, as `JSONObject` keeps its members in insertion order. Number formatting
  beyond integers is not modelled.
- `BitmapCacheId` keeps a `Resources` handle. It plays no part in equality, and it is
  folded into the resource decoder.
- JavaLang.StringHashCode: is stated only to stay in the int range. Its exact value is the
  UTF-16 definition in its body, which the model uses for `hashCode`.
