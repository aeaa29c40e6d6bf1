/** Cached text: TextCacheable (a downloaded text with a five-minute deadline), its key
    TextCacheId (one url), and the pool over them, TextCachePool.

    The transport and the stream reader are inputs: `download` is what the HTTP producer
    returns for a url (None when it yields no stream) and `readString` is what reading a
    stream to the end gives (None when reading fails).  The clock is the input `now`, in
    milliseconds. */
module TextCache {
  import opened Wrappers
  import opened JavaLang
  import opened CachePool
  import opened ExpiresCache

  /** An opaque downloaded stream. */
  type Stream = seq<bv8>

  /** The lifetime of a text entry: five minutes. */
  const TIME_OUT: int := 5 * 60000

  /** A downloaded text and its expiry deadline, both fixed at construction. */
  datatype TextCacheable = TextCacheable(text: Option<string>, dateExpires: int)

  /** The constructor: the text is what reading the stream gave, and the deadline is the
      construction time plus TIME_OUT. */
  function NewTextCacheable(read: Option<string>, now: int): (t: TextCacheable)
    ensures t.text == read
    ensures t.dateExpires - now == 300000
  {
    TextCacheable(read, now + TIME_OUT)
  }

  /** getCacheSize: no bytes for a null text, otherwise the length of its UTF-8 bytes. */
  function CacheSize(t: TextCacheable): (n: nat)
    ensures t.text.None? ==> n == 0
    ensures t.text.Some? ==> |t.text.value| <= n <= 4 * |t.text.value|
  {
    if t.text.None? then 0
    else
      Utf8LengthBounds(t.text.value);
      Utf8Length(t.text.value)
  }

  /** isExpires: the clock has passed the deadline. */
  predicate IsExpires(t: TextCacheable, now: int) {
    now - t.dateExpires > 0
  }

  /** A text expires exactly when more than TIME_OUT has passed since it was made: one made
      at time c is fresh at every now <= c + 300000 and stale at every later now. */
  lemma ExpiresExactly(read: Option<string>, created: int, now: int)
    ensures IsExpires(NewTextCacheable(read, created), now) <==> now > created + 300000
  {
  }

  /** With a clock that does not go back, a stale text stays stale. */
  lemma StaysExpired(t: TextCacheable, now: int, later: int)
    requires IsExpires(t, now) && now <= later
    ensures IsExpires(t, later)
  {
  }

  /** A text made by NewTextCacheable is not stale at the clock reading at which it was
      made. */
  lemma FreshWhenMade(read: Option<string>, now: int)
    ensures !IsExpires(NewTextCacheable(read, now), now)
  {
  }

  /** The key: one url, which may be null. */
  datatype TextCacheId = TextCacheId(url: Option<string>)

  /** equals: the same url, two null urls counting as the same. */
  predicate Equals(a: TextCacheId, b: TextCacheId) {
    if a.url.None? then b.url.None? else b.url.Some? && a.url.value == b.url.value
  }

  /** hashCode: 31 * 1 plus the url's String.hashCode, or plus 0 for a null url. */
  function HashCode(id: TextCacheId): (h: int)
    ensures INT_MIN <= h <= INT_MAX
  {
    Int32(31 * 1 + (if id.url.None? then 0 else StringHashCode(id.url.value)))
  }

  /** equals is exactly equality of the urls, so keying the pool by the datatype itself
      keys it as the source's HashMap does; and equal ids hash equally. */
  lemma EqualsIsUrlEquality(a: TextCacheId, b: TextCacheId)
    ensures Equals(a, b) <==> a.url == b.url
    ensures Equals(a, b) <==> a == b
    ensures Equals(a, b) ==> HashCode(a) == HashCode(b)
  {
  }

  /** createCache: download the url; no stream gives null; otherwise read a text from the
      stream, made at time `now`, and return it unless the text read is null. */
  function CreateCache(id: TextCacheId, download: Option<string> -> Option<Stream>,
                       readString: Stream -> Option<string>, now: int): (r: Option<TextCacheable>)
    ensures download(id.url).None? ==> r.None?
    ensures download(id.url).Some? && readString(download(id.url).value).None? ==> r.None?
    ensures r.Some? ==>
      && download(id.url).Some?
      && r.value == NewTextCacheable(readString(download(id.url).value), now)
      && r.value.text.Some?
  {
    var stream := download(id.url);
    var instance := if stream.Some? then Some(NewTextCacheable(readString(stream.value), now)) else None;
    if instance.Some? && instance.value.text.Some? then instance else None
  }

  /** Whatever createCache returns is not stale at the time it was made. */
  lemma CreatedIsFresh(id: TextCacheId, download: Option<string> -> Option<Stream>,
                       readString: Stream -> Option<string>, now: int)
    ensures var r := CreateCache(id, download, readString, now);
      r.Some? ==> !IsExpires(r.value, now) && r.value.dateExpires == now + TIME_OUT
  {
  }

  /** TextCachePool(maxSize): the two-tier pool over text ids and texts, charging each text
      its byte length and using its deadline for staleness.  A bound that is not positive is
      refused, as the LruCache constructor refuses it. */
  method NewTextCachePool(maxSize: int) returns (r: Result<ExpiresCachePool<TextCacheId, TextCacheable>, PoolFailure>)
    ensures maxSize <= 0 ==> r == Err(IllegalMaxSize)
    ensures 0 < maxSize ==> r.Ok? && fresh(r.value) && fresh(r.value.lru) && r.value.Valid()
    ensures r.Ok? ==>
      && r.value.lru.maxSize == maxSize && r.value.lru.Model().entries == map[] && r.value.soft == map[]
      && (forall t :: r.value.lru.cacheSize(t) == CacheSize(t))
      && (forall t, now :: r.value.isExpires(t, now) == IsExpires(t, now))
  {
    r := NewExpiresCachePool(maxSize, t => CacheSize(t), (t, now) => IsExpires(t, now));
  }
}
