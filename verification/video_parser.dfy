/** `VideoParserService`: the domain service between the handlers and the
    repository. It refuses an unprocessed video, maps a batch to values and
    passes the link check through. */
module VideoParser {
  import opened Wrappers
  import opened Failures
  import opened VideoEntity
  import opened VideoInfoValue
  import opened ShareLinks
  import opened Repository

  /** The check `parseVideo` makes on the repository's answer. */
  function CheckProcessed(found: Result<Video, Failure>): (r: Result<VideoInfo, Failure>)
    ensures found.Err? ==> r == Err(found.error)
    ensures found.Ok? ==> (r == Err(VideoNotProcessed) <==> !IsProcessed(found.value))
    ensures found.Ok? && IsProcessed(found.value) ==> r == Ok(FromEntity(found.value))
  {
    var video :- found;
    if !IsProcessed(video) then Err(VideoNotProcessed) else Ok(FromEntity(video))
  }

  /** The outcome of `parseVideo` and the cache after it. */
  datatype Parsed = Parsed(result: Result<VideoInfo, Failure>, cache: Cache)

  /** `parseVideo(shareUrl)`. With a cache holding only what the repository
      stores, the "not processed" error cannot arise: every failure is the
      repository's own, and the URL shown is the stored no-watermark URL. */
  function ParseVideo(cache: Cache, shareUrl: string, env: Env): (r: Parsed)
    ensures var found := FindByShareUrl(cache, shareUrl, env);
      && r.cache == found.cache
      && (WellFormed(cache) ==> r.result != Err(VideoNotProcessed))
      && (WellFormed(cache) ==> (r.result.Ok? <==> found.result.Ok?))
      && (found.result.Err? ==> r.result == Err(found.result.error))
      && (WellFormed(cache) && r.result.Ok? ==>
            r.result.value.videoUrl == found.result.value.noWatermarkUrl.value)
  {
    var found := FindByShareUrl(cache, shareUrl, env);
    Parsed(CheckProcessed(found.result), found.cache)
  }

  /** What one video contributes to a batch: its value when processed. */
  function Shown(v: Video): seq<VideoInfo> {
    if IsProcessed(v) then [FromEntity(v)] else []
  }

  /** `.filter(video => video.isProcessed()).map(VideoInfo.fromEntity)`. */
  function ProcessedInfos(videos: seq<Video>): (r: seq<VideoInfo>)
    ensures |r| <= |videos|
    decreases |videos|
  {
    if |videos| == 0 then [] else Shown(videos[0]) + ProcessedInfos(videos[1..])
  }

  /** When every video is processed, every one is shown, in order. */
  lemma {:induction false} AllProcessedAllShown(videos: seq<Video>)
    ensures (forall i :: 0 <= i < |videos| ==> IsProcessed(videos[i])) ==>
      |ProcessedInfos(videos)| == |videos| &&
      forall i :: 0 <= i < |videos| ==> ProcessedInfos(videos)[i] == FromEntity(videos[i])
    decreases |videos|
  {
    if |videos| > 0 && forall i :: 0 <= i < |videos| ==> IsProcessed(videos[i]) {
      var tail := videos[1..];
      assert forall i :: 0 <= i < |tail| ==> tail[i] == videos[i + 1];
      AllProcessedAllShown(tail);
      assert ProcessedInfos(videos) == [FromEntity(videos[0])] + ProcessedInfos(tail);
    }
  }

  /** When no video is processed, nothing is shown. */
  lemma {:induction false} NoneProcessedNoneShown(videos: seq<Video>)
    ensures (forall i :: 0 <= i < |videos| ==> !IsProcessed(videos[i])) ==> ProcessedInfos(videos) == []
    decreases |videos|
  {
    if |videos| > 0 && forall i :: 0 <= i < |videos| ==> !IsProcessed(videos[i]) {
      var tail := videos[1..];
      assert forall i :: 0 <= i < |tail| ==> tail[i] == videos[i + 1];
      NoneProcessedNoneShown(tail);
    }
  }

  /** `parseBatchVideos` once the repository has answered. */
  function ParseBatch(videos: seq<Video>): (r: Result<seq<VideoInfo>, Failure>)
    ensures r == Err(NoVideosParsed) <==> |videos| == 0
    ensures r.Ok? ==> r.value == ProcessedInfos(videos)
  {
    if |videos| == 0 then Err(NoVideosParsed) else Ok(ProcessedInfos(videos))
  }

  /** The outcome of `parseBatchVideos` and the cache after it. */
  datatype BatchParsed = BatchParsed(result: Result<seq<VideoInfo>, Failure>, cache: Cache)

  /** `parseBatchVideos(shareUrls)`. */
  function ParseBatchVideos(cache: Cache, urls: seq<string>, env: Env): (r: BatchParsed)
    ensures var found := FindByShareUrls(cache, urls, env);
      && r.cache == found.cache
      && (r.result == Err(NoVideosParsed) <==> |found.videos| == 0)
      && (r.result.Ok? ==> |r.result.value| <= |urls|)
  {
    var found := FindByShareUrls(cache, urls, env);
    BatchParsed(ParseBatch(found.videos), found.cache)
  }

  /** With a cache holding only what the repository stores, every video the
      repository found is shown, in order, with its stored no-watermark URL. */
  lemma {:induction false} BatchShowsEveryVideo(cache: Cache, urls: seq<string>, env: Env)
    requires WellFormed(cache)
    ensures var found := FindByShareUrls(cache, urls, env);
      var r := ParseBatchVideos(cache, urls, env);
      r.result.Ok? ==>
        && |r.result.value| == |found.videos|
        && forall i :: 0 <= i < |found.videos| ==>
             Complete(found.videos[i]) &&
             r.result.value[i] == FromEntity(found.videos[i]) &&
             r.result.value[i].videoUrl == found.videos[i].noWatermarkUrl.value
  {
    var found := FindByShareUrls(cache, urls, env);
    BatchInvariant(cache, urls, env);
    AllProcessedAllShown(found.videos);
  }

  /** `checkUrl(url)`: the repository's classification, unchanged. */
  function CheckUrl(url: string): (r: LinkCheck)
    ensures r.isValid <==> OnAllowList(url)
    ensures r.platform == "douyin"
  {
    IsValidDouyinUrl(url)
  }

  // ---------------------------------------------------------------------------
  // Properties across the service and the repository
  // ---------------------------------------------------------------------------

  /** The filter keeps order: the values of `a + b` are those of `a` followed
      by those of `b`. */
  lemma {:induction false} ProcessedInfosAppend(a: seq<Video>, b: seq<Video>)
    ensures ProcessedInfos(a + b) == ProcessedInfos(a) + ProcessedInfos(b)
    decreases |a|
  {
    if |a| == 0 {
      assert a + b == b;
    } else {
      var ab := a + b;
      assert ab[0] == a[0];
      assert ab[1..] == a[1..] + b;
      var head := Shown(a[0]);
      assert ProcessedInfos(ab) == head + ProcessedInfos(a[1..] + b);
      assert ProcessedInfos(a) == head + ProcessedInfos(a[1..]);
      ProcessedInfosAppend(a[1..], b);
      assert head + (ProcessedInfos(a[1..]) + ProcessedInfos(b)) == (head + ProcessedInfos(a[1..])) + ProcessedInfos(b);
    }
  }

  /** A batch of links that all fail, over a cache that holds none of them,
      is refused as a whole and leaves the cache alone. */
  lemma {:induction false} NothingParsed(cache: Cache, urls: seq<string>, env: Env)
    requires forall j :: 0 <= j < |urls| ==> CacheKey(urls[j]) !in cache && Resolve(urls[j], env).Err?
    ensures ParseBatchVideos(cache, urls, env) == BatchParsed(Err(NoVideosParsed), cache)
  {
    BatchOfFailures(cache, urls, env);
  }

  /** From an empty cache, a batch of links without `douyin.com` is refused. */
  lemma {:induction false} InvalidLinksNothingParsed(urls: seq<string>, env: Env)
    requires forall j :: 0 <= j < |urls| ==> !Strings.Contains(urls[j], "douyin.com")
    ensures ParseBatchVideos(map[], urls, env).result == Err(NoVideosParsed)
  {
    NothingParsed(map[], urls, env);
  }

  /** From a well-formed cache, when every link is cached or resolves, the
      batch shows one value per link. */
  lemma {:induction false} EveryLinkShown(cache: Cache, urls: seq<string>, env: Env)
    requires WellFormed(cache) && |urls| > 0
    requires forall j :: 0 <= j < |urls| ==> CacheKey(urls[j]) in cache || Resolve(urls[j], env).Ok?
    ensures ParseBatchVideos(cache, urls, env).result.Ok?
    ensures |ParseBatchVideos(cache, urls, env).result.value| == |urls|
  {
    BatchKeepsResolvable(cache, urls, env);
    BatchShowsEveryVideo(cache, urls, env);
  }
}
