/** Cached bitmaps: BitmapCacheable (a decoded bitmap that never expires), its key
    BitmapCacheId (a local path, a url or a resource id, with the decode bounds), and the
    pool over them, BitmapCachePool.

    The decoders and the transport are inputs (`Decoders`); a decoder returns None where
    the platform decoder returns a null bitmap. */
module BitmapCache {
  import opened Wrappers
  import opened JavaLang
  import opened CachePool
  import opened ExpiresCache

  type Stream = seq<bv8>

  /** A decoded bitmap; only its byte count matters to the cache. */
  datatype Bitmap = Bitmap(byteCount: nat)

  /** The three decoders (from a stream, from a file path, from a resource id) and the
      HTTP producer, each with the decode bounds maxWidth and maxHeight where it takes them. */
  datatype Decoders = Decoders(
    fromStream: (Stream, int, int) -> Option<Bitmap>,
    fromPath: (string, int, int) -> Option<Bitmap>,
    fromResource: (int, int, int) -> Option<Bitmap>,
    download: string -> Option<Stream>)

  /** The cached object: the decoder's result, computed once by whichever constructor ran. */
  datatype BitmapCacheable = BitmapCacheable(bitmap: Option<Bitmap>)

  function FromStream(dec: Decoders, s: Stream, maxWidth: int, maxHeight: int): (c: BitmapCacheable)
    ensures c.bitmap == dec.fromStream(s, maxWidth, maxHeight)
  {
    BitmapCacheable(dec.fromStream(s, maxWidth, maxHeight))
  }

  function FromPath(dec: Decoders, path: string, maxWidth: int, maxHeight: int): (c: BitmapCacheable)
    ensures c.bitmap == dec.fromPath(path, maxWidth, maxHeight)
  {
    BitmapCacheable(dec.fromPath(path, maxWidth, maxHeight))
  }

  function FromResource(dec: Decoders, resId: int, maxWidth: int, maxHeight: int): (c: BitmapCacheable)
    ensures c.bitmap == dec.fromResource(resId, maxWidth, maxHeight)
  {
    BitmapCacheable(dec.fromResource(resId, maxWidth, maxHeight))
  }

  /** getCacheSize: nothing for a null bitmap, otherwise the bitmap's byte count. */
  function CacheSize(c: BitmapCacheable): (n: nat)
    ensures c.bitmap.None? ==> n == 0
    ensures c.bitmap.Some? ==> n == c.bitmap.value.byteCount
  {
    if c.bitmap.None? then 0 else c.bitmap.value.byteCount
  }

  /** isExpires: a bitmap never goes stale. */
  predicate IsExpires(c: BitmapCacheable, now: int) {
    false
  }

  /** The key, by the constructor that made it.  The fields the source leaves unset are
      null for the path and url and 0 for the resource id. */
  datatype BitmapCacheId =
    | PathId(path: Option<string>, maxWidth: int, maxHeight: int)
    | UrlId(url: Option<string>, maxWidth: int, maxHeight: int)
    | ResourceId(resId: int, maxWidth: int, maxHeight: int)

  function Path(id: BitmapCacheId): Option<string> {
    if id.PathId? then id.path else None
  }

  function Url(id: BitmapCacheId): Option<string> {
    if id.UrlId? then id.url else None
  }

  function ResId(id: BitmapCacheId): int {
    if id.ResourceId? then id.resId else 0
  }

  /** The identity text of any id: the source text, "|", the width, "x", the height. */
  function Tag(source: string, maxWidth: int, maxHeight: int): string {
    source + "|" + Bounds(maxWidth, maxHeight)
  }

  /** The bounds part of the identity text: the width, "x", the height. */
  function Bounds(maxWidth: int, maxHeight: int): string {
    IntToString(maxWidth) + "x" + IntToString(maxHeight)
  }

  /** CACHE_ID, built once by the constructor: the path, the url or the resource id as
      string concatenation renders it (a null path or url as "null"), then the bounds. */
  function CacheId(id: BitmapCacheId): string {
    match id
    case PathId(path, w, h) => Tag(NullText(path), w, h)
    case UrlId(url, w, h) => Tag(NullText(url), w, h)
    case ResourceId(resId, w, h) => Tag(IntToString(resId), w, h)
  }

  /** equals compares the identity strings. */
  predicate Equals(a: BitmapCacheId, b: BitmapCacheId) {
    CacheId(a) == CacheId(b)
  }

  /** hashCode: 31 * 1 plus the identity string's String.hashCode. */
  function HashCode(id: BitmapCacheId): (h: int)
    ensures INT_MIN <= h <= INT_MAX
  {
    Int32(31 * 1 + StringHashCode(CacheId(id)))
  }

  /** createCache: a path is decoded from the file; failing that a url is downloaded and a
      stream decoded, with no stream giving null; failing both the resource is decoded.  An
      instance whose bitmap is null is never returned. */
  function CreateCache(id: BitmapCacheId, dec: Decoders): (r: Option<BitmapCacheable>)
    ensures r.Some? ==> r.value.bitmap.Some?
    ensures Path(id).Some? ==>
      r == (var c := FromPath(dec, Path(id).value, id.maxWidth, id.maxHeight); if c.bitmap.Some? then Some(c) else None)
    ensures Path(id).None? && Url(id).Some? && dec.download(Url(id).value).None? ==> r.None?
    ensures Path(id).None? && Url(id).Some? && dec.download(Url(id).value).Some? ==>
      r == (var c := FromStream(dec, dec.download(Url(id).value).value, id.maxWidth, id.maxHeight);
            if c.bitmap.Some? then Some(c) else None)
    ensures Path(id).None? && Url(id).None? ==>
      r == (var c := FromResource(dec, ResId(id), id.maxWidth, id.maxHeight); if c.bitmap.Some? then Some(c) else None)
  {
    var instance :=
      if Path(id).Some? then Some(FromPath(dec, Path(id).value, id.maxWidth, id.maxHeight))
      else if Url(id).Some? then
        (var stream := dec.download(Url(id).value);
         if stream.Some? then Some(FromStream(dec, stream.value, id.maxWidth, id.maxHeight)) else None)
      else Some(FromResource(dec, ResId(id), id.maxWidth, id.maxHeight));
    if instance.Some? && instance.value.bitmap.Some? then instance else None
  }

  /** A path id and a url id with the same text and bounds are equal, and so are a resource
      id and a path id whose text is that resource id's decimal form. */
  lemma SourceKindIsNotPartOfIdentity(text: string, resId: int, w: int, h: int)
    ensures Equals(PathId(Some(text), w, h), UrlId(Some(text), w, h))
    ensures Equals(ResourceId(resId, w, h), PathId(Some(IntToString(resId)), w, h))
    ensures Equals(PathId(None, w, h), UrlId(Some("null"), w, h))
  {
  }

  /** hashCode depends on the identity text alone. */
  lemma HashCodeOfText(id: BitmapCacheId, t: string)
    requires CacheId(id) == t
    ensures HashCode(id) == Int32(31 * 1 + StringHashCode(t))
  {
  }

  /** Equal ids hash equally. */
  lemma EqualsHashEqually(a: BitmapCacheId, b: BitmapCacheId)
    ensures Equals(a, b) ==> HashCode(a) == HashCode(b)
  {
    if Equals(a, b) {
      var t := CacheId(a);
      HashCodeOfText(a, t);
      HashCodeOfText(b, t);
    }
  }

  /** The identity text determines its parts: the source text, the width and the height;
      the text may itself contain '|' and 'x', but the decimal bounds contain neither. */
  lemma TagInjective(s1: string, w1: int, h1: int, s2: string, w2: int, h2: int)
    requires Tag(s1, w1, h1) == Tag(s2, w2, h2)
    ensures s1 == s2 && w1 == w2 && h1 == h2
  {
    NoBarInBounds(w1, h1);
    NoBarInBounds(w2, h2);
    SplitAtLast(s1, Bounds(w1, h1), s2, Bounds(w2, h2), '|');
    BoundsInjective(w1, h1, w2, h2);
  }

  lemma NoBarInBounds(w: int, h: int)
    ensures '|' !in Bounds(w, h)
  {
    IntToStringChars(w, '|');
    IntToStringChars(h, '|');
  }

  /** The width ends at the first 'x', since a decimal number has none. */
  lemma BoundsInjective(w1: int, h1: int, w2: int, h2: int)
    requires Bounds(w1, h1) == Bounds(w2, h2)
    ensures w1 == w2 && h1 == h2
  {
    IntToStringChars(w1, 'x');
    IntToStringChars(w2, 'x');
    SplitAtFirst(IntToString(w1), IntToString(h1), IntToString(w2), IntToString(h2), 'x');
    IntToStringInjective(w1, w2);
    IntToStringInjective(h1, h2);
  }

  /** The character at i, or a space outside the string. */
  function At(s: string, i: int): char {
    if 0 <= i < |s| then s[i] else ' '
  }

  /** Cutting at the last occurrence of a separator. */
  lemma SplitAtLast(a1: string, b1: string, a2: string, b2: string, c: char)
    requires a1 + [c] + b1 == a2 + [c] + b2
    requires c !in b1 && c !in b2
    ensures a1 == a2 && b1 == b2
  {
    var t := a1 + [c] + b1;
    assert |b1| < |b2| ==> At(t, |a1|) == c && At(t, |a1|) == At(b2, |a1| - |a2| - 1);
    assert |b2| < |b1| ==> At(t, |a2|) == c && At(t, |a2|) == At(b1, |a2| - |a1| - 1);
    assert a1 == t[..|a1|] == a2;
    assert b1 == t[|a1| + 1..] == b2;
  }

  /** Cutting at the first occurrence of a separator. */
  lemma SplitAtFirst(a1: string, b1: string, a2: string, b2: string, c: char)
    requires a1 + [c] + b1 == a2 + [c] + b2
    requires c !in a1 && c !in a2
    ensures a1 == a2 && b1 == b2
  {
    var t := a1 + [c] + b1;
    assert |a1| < |a2| ==> At(t, |a1|) == c && At(t, |a1|) == At(a2, |a1|);
    assert |a2| < |a1| ==> At(t, |a2|) == c && At(t, |a2|) == At(a1, |a2|);
    assert a1 == t[..|a1|] == a2;
    assert b1 == t[|a1| + 1..] == b2;
  }

  /** Two ids made by the same constructor are equal exactly when they name the same source
      and the same bounds (a null path or url counting as the text "null"). */
  lemma EqualsSameKind(a: BitmapCacheId, b: BitmapCacheId)
    requires a.PathId? == b.PathId? && a.UrlId? == b.UrlId?
    ensures Equals(a, b) <==>
      && a.maxWidth == b.maxWidth && a.maxHeight == b.maxHeight
      && (a.PathId? ==> NullText(a.path) == NullText(b.path))
      && (a.UrlId? ==> NullText(a.url) == NullText(b.url))
      && (a.ResourceId? ==> a.resId == b.resId)
  {
    if Equals(a, b) {
      match a
      case PathId(p, w, h) => TagInjective(NullText(p), w, h, NullText(b.path), b.maxWidth, b.maxHeight);
      case UrlId(u, w, h) => TagInjective(NullText(u), w, h, NullText(b.url), b.maxWidth, b.maxHeight);
      case ResourceId(r, w, h) =>
        TagInjective(IntToString(r), w, h, IntToString(b.resId), b.maxWidth, b.maxHeight);
        IntToStringInjective(r, b.resId);
    }
  }

  /** The pool is keyed by the identity string, so ids that the source's HashMap would
      treat as one key are one key here. */
  type PoolKey = string

  function Key(id: BitmapCacheId): (k: PoolKey)
    ensures forall other :: Equals(id, other) <==> CacheId(other) == k
  {
    CacheId(id)
  }

  /** BitmapCachePool(maxSize): the two-tier pool over bitmap identities, charging each
      bitmap its byte count; nothing in it ever goes stale.  A bound that is not positive is
      refused, as the LruCache constructor refuses it. */
  method NewBitmapCachePool(maxSize: int) returns (r: Result<ExpiresCachePool<PoolKey, BitmapCacheable>, PoolFailure>)
    ensures maxSize <= 0 ==> r == Err(IllegalMaxSize)
    ensures 0 < maxSize ==> r.Ok? && fresh(r.value) && fresh(r.value.lru) && r.value.Valid()
    ensures r.Ok? ==>
      && r.value.lru.maxSize == maxSize && r.value.lru.Model().entries == map[] && r.value.soft == map[]
      && (forall c :: r.value.lru.cacheSize(c) == CacheSize(c))
      && (forall c, now :: !r.value.isExpires(c, now))
  {
    r := NewExpiresCachePool(maxSize, c => CacheSize(c), (c, now) => IsExpires(c, now));
  }

  /** Since bitmaps never go stale, a bitmap pool's getCache never takes the retry path: it
      returns what the bounded tier yields and calls the factory at most once. */
  method GetBitmap(p: ExpiresCachePool<PoolKey, BitmapCacheable>, id: BitmapCacheId, dec: Decoders, now: int)
      returns (r: Option<BitmapCacheable>, calls: nat)
    requires p.Valid()
    requires forall c, t :: !p.isExpires(c, t)
    modifies p, p.lru
    ensures p.Valid()
    ensures r == old(p.TierValue(Key(id), CreateCache(id, dec)))
    ensures calls == if old(p.ReachesFactory(Key(id))) then 1 else 0
    ensures p.soft == AfterCreate(old(p.soft), Key(id), old(p.ReachesFactory(Key(id))), CreateCache(id, dec))
    ensures p.lru.Model() == AfterGet(old(p.lru.Model()), Key(id), r, p.lru.maxSize, p.lru.cacheSize)
  {
    r, calls := p.GetCache(Key(id), CreateCache(id, dec), CreateCache(id, dec), now);
  }
}
