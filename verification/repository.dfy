/** `ApiVideoRepository.findByShareUrl` and `findByShareUrls`: the four-stage
    pipeline (share link, video ID, item info, entity) behind a cache keyed by
    the share link. The network is an `Env` of answers keyed by request URL;
    the cache is a map threaded through every call. */
module Repository {
  import opened Wrappers
  import opened Strings
  import opened Failures
  import opened ShareLinks
  import opened VideoIds
  import opened Metadata
  import opened VideoEntity

  /** What the outside world answers. `redirect` is the reply to the
      no-redirect GET of a share link, `itemIdParam` the `item_id` query
      parameter of a URL (None also when the URL does not parse), `page` the
      body of a page GET (None when it fails) and `itemInfo` the parsed body of
      an item-info API GET (None when it fails). */
  datatype Env = Env(
    redirect: string -> RedirectReply,
    itemIdParam: string -> Option<string>,
    page: string -> Option<string>,
    itemInfo: string -> Option<ItemInfo>)

  type Cache = map<string, Video>

  const CachePrefix := "douyin:video:"
  const ItemInfoEndpoint := "https://www.iesdouyin.com/web/api/v2/aweme/iteminfo/?item_ids="

  function CacheKey(shareUrl: string): string {
    CachePrefix + shareUrl
  }

  function ItemInfoUrl(videoId: string): string {
    ItemInfoEndpoint + videoId
  }

  /** Every entry a resolution can store: processed, with a non-empty
      no-watermark URL and a non-empty ID. */
  ghost predicate WellFormed(cache: Cache) {
    forall k :: k in cache ==> Complete(cache[k])
  }

  ghost predicate Complete(v: Video) {
    IsProcessed(v) && v.noWatermarkUrl.value != "" && v.id != ""
  }

  /** Steps 2 to 5 of `findByShareUrl`: the first failing stage's error, or the
      processed entity. */
  function Resolve(shareUrl: string, env: Env): (r: Result<Video, Failure>)
    ensures !Contains(shareUrl, "douyin.com") ==> r == Err(InvalidShareLink)
    ensures r.Ok? ==> Complete(r.value)
  {
    var realUrl :- ProcessShareUrl(shareUrl, env.redirect(shareUrl));
    var videoId :- ExtractVideoId(realUrl, env.itemIdParam(realUrl), env.page(realUrl));
    var info :- FetchVideoInfo(videoId, env.itemInfo(ItemInfoUrl(videoId)));
    StoredUrlNonEmpty(info.videoUrl);
    var video := NewVideo(videoId, realUrl, info.title, info.author, info.coverUrl, info.duration);
    Ok(SetNoWatermarkUrl(video, info.videoUrl))
  }

  /** A resolved video records each stage's answer: its URL is the processed
      link, its ID the one extracted there, its no-watermark URL the stored
      form of the item-info URL, and its other fields the item-info record's. */
  lemma {:induction false} ResolveStages(shareUrl: string, env: Env)
    requires Resolve(shareUrl, env).Ok?
    ensures var v := Resolve(shareUrl, env).value;
      && ProcessShareUrl(shareUrl, env.redirect(shareUrl)) == Ok(v.url)
      && ExtractVideoId(v.url, env.itemIdParam(v.url), env.page(v.url)) == Ok(v.id)
      && var info := FetchVideoInfo(v.id, env.itemInfo(ItemInfoUrl(v.id)));
         && info.Ok?
         && v.noWatermarkUrl == Some(StoredUrl(info.value.videoUrl))
         && v.title == info.value.title && v.author == info.value.author
         && v.coverUrl == info.value.coverUrl && v.duration == info.value.duration
  {
  }

  /** Each stage's failure is the lookup's failure, in pipeline order. */
  lemma {:induction false} ResolveFailures(shareUrl: string, env: Env)
    ensures var link := ProcessShareUrl(shareUrl, env.redirect(shareUrl));
      && (link.Err? ==> Resolve(shareUrl, env) == Err(link.error))
      && (link.Ok? ==>
            var id := ExtractVideoId(link.value, env.itemIdParam(link.value), env.page(link.value));
            && (id.Err? ==> Resolve(shareUrl, env) == Err(id.error))
            && (id.Ok? ==>
                  var info := FetchVideoInfo(id.value, env.itemInfo(ItemInfoUrl(id.value)));
                  info.Err? ==> Resolve(shareUrl, env) == Err(info.error)))
  {
  }

  /** The outcome of one lookup and the cache after it. */
  datatype Lookup = Lookup(result: Result<Video, Failure>, cache: Cache)

  /** `findByShareUrl(shareUrl)`. */
  function FindByShareUrl(cache: Cache, shareUrl: string, env: Env): (r: Lookup)
    ensures CacheKey(shareUrl) in cache ==> r == Lookup(Ok(cache[CacheKey(shareUrl)]), cache)
    ensures CacheKey(shareUrl) !in cache ==> r.result == Resolve(shareUrl, env)
    ensures r.result.Ok? ==> CacheKey(shareUrl) in r.cache && r.cache[CacheKey(shareUrl)] == r.result.value
    ensures r.result.Err? ==> r.cache == cache
  {
    var key := CacheKey(shareUrl);
    if key in cache then Lookup(Ok(cache[key]), cache)
    else
      var resolved := Resolve(shareUrl, env);
      if resolved.Err? then Lookup(resolved, cache)
      else Lookup(resolved, cache[key := resolved.value])
  }

  /** A lookup writes only its own key, and only on success; no existing
      entry changes, and a well-formed cache stays well-formed. */
  lemma {:induction false} LookupInvariant(cache: Cache, shareUrl: string, env: Env)
    ensures var r := FindByShareUrl(cache, shareUrl, env);
      && r.cache.Keys == cache.Keys + (if r.result.Ok? then {CacheKey(shareUrl)} else {})
      && (forall k :: k in cache ==> k in r.cache && r.cache[k] == cache[k])
      && (WellFormed(cache) ==> WellFormed(r.cache))
  {
  }

  /** `v` is the entry cached for one of `urls`. */
  ghost predicate CachedFor(cache: Cache, urls: seq<string>, v: Video) {
    exists j :: 0 <= j < |urls| && CacheKey(urls[j]) in cache && cache[CacheKey(urls[j])] == v
  }

  lemma CachedForTail(cache: Cache, urls: seq<string>, v: Video)
    requires |urls| > 0 && CachedFor(cache, urls[1..], v)
    ensures CachedFor(cache, urls, v)
  {
    var j :| 0 <= j < |urls[1..]| && CacheKey(urls[1..][j]) in cache && cache[CacheKey(urls[1..][j])] == v;
    assert urls[1..][j] == urls[j + 1];
  }

  lemma CachedForCons(cache: Cache, urls: seq<string>, kept: seq<Video>, videos: seq<Video>)
    requires |urls| > 0
    requires forall i :: 0 <= i < |kept| ==> CacheKey(urls[0]) in cache && cache[CacheKey(urls[0])] == kept[i]
    requires forall i :: 0 <= i < |videos| ==> CachedFor(cache, urls[1..], videos[i])
    ensures forall i :: 0 <= i < |kept + videos| ==> CachedFor(cache, urls, (kept + videos)[i])
  {
    forall i | 0 <= i < |kept + videos| ensures CachedFor(cache, urls, (kept + videos)[i]) {
      if i < |kept| {
        assert (kept + videos)[i] == kept[i];
      } else {
        assert (kept + videos)[i] == videos[i - |kept|];
        CachedForTail(cache, urls, videos[i - |kept|]);
      }
    }
  }

  /** What one lookup adds to a batch: its video on success, nothing on failure. */
  function Kept(l: Lookup): seq<Video> {
    if l.result.Ok? then [l.result.value] else []
  }

  /** The videos of a batch and the cache after it. */
  datatype Batch = Batch(videos: seq<Video>, cache: Cache)

  /** Each link in turn through `lookup`, each lookup seeing the cache the
      previous one left; a failed lookup contributes no video. */
  function Collect(cache: Cache, urls: seq<string>, lookup: (Cache, string) -> Lookup): (r: Batch)
    ensures |r.videos| <= |urls|
    decreases |urls|
  {
    if |urls| == 0 then Batch([], cache)
    else
      var first := lookup(cache, urls[0]);
      var rest := Collect(first.cache, urls[1..], lookup);
      Batch(Kept(first) + rest.videos, rest.cache)
  }

  /** The single-link lookup against a fixed world. */
  function LookupIn(env: Env): (Cache, string) -> Lookup {
    (c: Cache, u: string) => FindByShareUrl(c, u, env)
  }

  /** `findByShareUrls(shareUrls)`: each link in turn, failures skipped. */
  function FindByShareUrls(cache: Cache, urls: seq<string>, env: Env): (r: Batch)
    ensures |r.videos| <= |urls|
  {
    Collect(cache, urls, LookupIn(env))
  }

  /** A non-empty batch is its first lookup followed by the batch of the rest. */
  lemma BatchStep(cache: Cache, urls: seq<string>, env: Env, first: Lookup)
    requires |urls| > 0 && first == FindByShareUrl(cache, urls[0], env)
    ensures var rest := FindByShareUrls(first.cache, urls[1..], env);
      FindByShareUrls(cache, urls, env) == Batch(Kept(first) + rest.videos, rest.cache)
  {
    assert LookupIn(env)(cache, urls[0]) == first;
  }

  /** Collecting over `a + b` is collecting over `a` and then over `b` from
      the cache `a` left, whatever the lookup. */
  lemma {:induction false} CollectAppend(cache: Cache, a: seq<string>, b: seq<string>, lookup: (Cache, string) -> Lookup)
    ensures var ra := Collect(cache, a, lookup);
      var rb := Collect(ra.cache, b, lookup);
      Collect(cache, a + b, lookup) == Batch(ra.videos + rb.videos, rb.cache)
    decreases |a|
  {
    if |a| == 0 {
      assert a + b == b;
    } else {
      var first := lookup(cache, a[0]);
      assert (a + b)[0] == a[0];
      assert (a + b)[1..] == a[1..] + b;
      CollectAppend(first.cache, a[1..], b, lookup);
      var ra := Collect(first.cache, a[1..], lookup);
      var rb := Collect(ra.cache, b, lookup);
      assert Kept(first) + (ra.videos + rb.videos) == (Kept(first) + ra.videos) + rb.videos;
    }
  }

  /** What a batch keeps true: existing entries never change, a well-formed
      cache stays well-formed and then yields only complete videos, and every
      video returned is the entry cached for one of the links. */
  lemma {:induction false} BatchInvariant(cache: Cache, urls: seq<string>, env: Env)
    ensures var r := FindByShareUrls(cache, urls, env);
      && (forall k :: k in cache ==> k in r.cache && r.cache[k] == cache[k])
      && (WellFormed(cache) ==> WellFormed(r.cache))
      && (WellFormed(cache) ==> forall i :: 0 <= i < |r.videos| ==> Complete(r.videos[i]))
      && (forall i :: 0 <= i < |r.videos| ==> CachedFor(r.cache, urls, r.videos[i]))
    decreases |urls|
  {
    if |urls| > 0 {
      var first := FindByShareUrl(cache, urls[0], env);
      var rest := FindByShareUrls(first.cache, urls[1..], env);
      LookupInvariant(cache, urls[0], env);
      BatchInvariant(first.cache, urls[1..], env);
      CachedForCons(rest.cache, urls, Kept(first), rest.videos);
      assert FindByShareUrls(cache, urls, env) == Batch(Kept(first) + rest.videos, rest.cache);
    }
  }

  // ---------------------------------------------------------------------------
  // Properties of the cache
  // ---------------------------------------------------------------------------

  /** Different share links are cached under different keys. */
  lemma {:induction false} KeysDistinct(a: string, b: string)
    requires a != b
    ensures CacheKey(a) != CacheKey(b)
  {
    assert CacheKey(a)[|CachePrefix|..] == a;
    assert CacheKey(b)[|CachePrefix|..] == b;
  }

  /** A cached link is answered without consulting the outside world. */
  lemma {:induction false} HitIgnoresEnv(cache: Cache, shareUrl: string, e1: Env, e2: Env)
    requires CacheKey(shareUrl) in cache
    ensures FindByShareUrl(cache, shareUrl, e1) == FindByShareUrl(cache, shareUrl, e2)
    ensures FindByShareUrl(cache, shareUrl, e1).result.Ok?
  {
  }

  /** After a successful lookup the same link is a hit, whatever the world
      answers the second time. */
  lemma {:induction false} RepeatHitsCache(cache: Cache, shareUrl: string, e1: Env, e2: Env)
    requires FindByShareUrl(cache, shareUrl, e1).result.Ok?
    ensures var first := FindByShareUrl(cache, shareUrl, e1);
      FindByShareUrl(first.cache, shareUrl, e2) == first
  {
  }

  /** A link without `douyin.com` fails before any request and leaves the
      cache alone. */
  lemma {:induction false} InvalidLinkNeverCached(cache: Cache, shareUrl: string, env: Env)
    requires !Contains(shareUrl, "douyin.com") && CacheKey(shareUrl) !in cache
    ensures FindByShareUrl(cache, shareUrl, env) == Lookup(Err(InvalidShareLink), cache)
  {
  }

  // ---------------------------------------------------------------------------
  // Properties of the batch
  // ---------------------------------------------------------------------------

  /** Running a batch on `a + b` is running it on `a` and then on `b` with the
      cache `a` left: order is kept and the parts do not interfere. */
  lemma {:induction false} BatchAppend(cache: Cache, a: seq<string>, b: seq<string>, env: Env)
    ensures var ra := FindByShareUrls(cache, a, env);
      var rb := FindByShareUrls(ra.cache, b, env);
      FindByShareUrls(cache, a + b, env) == Batch(ra.videos + rb.videos, rb.cache)
  {
    CollectAppend(cache, a, b, LookupIn(env));
  }

  /** A one-link batch holds the lookup's video on success and nothing on
      failure. */
  lemma {:induction false} BatchSingle(cache: Cache, url: string, env: Env)
    ensures var l := FindByShareUrl(cache, url, env);
      FindByShareUrls(cache, [url], env) ==
        Batch(if l.result.Ok? then [l.result.value] else [], l.cache)
  {
    var l := FindByShareUrl(cache, url, env);
    assert [url][0] == url;
    assert [url][1..] == [];
    var rest := FindByShareUrls(l.cache, [], env);
    assert rest == Batch([], l.cache);
  }

  /** Each link that is cached or resolves yields one video: when every link
      does, nothing is dropped. */
  lemma {:induction false} BatchKeepsResolvable(cache: Cache, urls: seq<string>, env: Env)
    requires forall j :: 0 <= j < |urls| ==> CacheKey(urls[j]) in cache || Resolve(urls[j], env).Ok?
    ensures |FindByShareUrls(cache, urls, env).videos| == |urls|
    decreases |urls|
  {
    if |urls| > 0 {
      var first := FindByShareUrl(cache, urls[0], env);
      assert first.result.Ok?;
      forall j | 0 <= j < |urls[1..]|
        ensures CacheKey(urls[1..][j]) in first.cache || Resolve(urls[1..][j], env).Ok?
      {
        assert urls[1..][j] == urls[j + 1];
      }
      BatchKeepsResolvable(first.cache, urls[1..], env);
    }
  }

  /** Links that are neither cached nor resolvable yield no video and leave
      the cache as it was. */
  lemma {:induction false} BatchOfFailures(cache: Cache, urls: seq<string>, env: Env)
    requires forall j :: 0 <= j < |urls| ==> CacheKey(urls[j]) !in cache && Resolve(urls[j], env).Err?
    ensures FindByShareUrls(cache, urls, env) == Batch([], cache)
    decreases |urls|
  {
    if |urls| > 0 {
      forall j | 0 <= j < |urls[1..]|
        ensures CacheKey(urls[1..][j]) !in cache && Resolve(urls[1..][j], env).Err?
      {
        assert urls[1..][j] == urls[j + 1];
      }
      BatchOfFailures(cache, urls[1..], env);
    }
  }
}
