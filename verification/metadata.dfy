/** The item-info stage of `ApiVideoRepository`: the shape of the API's item
    record (every field optional), the four ordered strategies of
    `extractNoWatermarkUrl`, the `constructVideoUrl` fallback, and the record
    `fetchVideoInfo` assembles. */
module Metadata {
  import opened Wrappers
  import opened Strings
  import opened Failures

  /** An address object of the API: `url_list` and `uri`. */
  datatype Address = Address(urlList: Option<seq<string>>, uri: Option<string>)

  /** A numeric field of the API as JavaScript's `>` sees it: absent
      (`undefined`), `null`, or a number. */
  datatype JsNumber = Undefined | Null | Number(n: int)

  /** One entry of `video.bit_rate`. */
  datatype Rate = Rate(bitRate: JsNumber, playAddr: Option<Address>)

  datatype VideoMeta = VideoMeta(
    playAddr: Option<Address>,
    downloadAddr: Option<Address>,
    nwmVideoUrlList: Option<seq<string>>,
    bitRate: Option<seq<Rate>>,
    cover: Option<Address>,
    duration: Option<int>)

  datatype Author = Author(nickname: Option<string>)

  /** One element of `item_list`. */
  datatype Item = Item(video: Option<VideoMeta>, desc: Option<string>, author: Option<Author>)

  /** The item-info document; `itemList` is None also when the body is empty. */
  datatype ItemInfo = ItemInfo(itemList: Option<seq<Item>>)

  /** What `fetchVideoInfo` resolves to. */
  datatype VideoRecord = VideoRecord(
    videoUrl: string,
    coverUrl: string,
    title: string,
    author: string,
    duration: int)

  // ---------------------------------------------------------------------------
  // Optional-chaining accessors (`x?.y?.url_list`), empty when absent
  // ---------------------------------------------------------------------------

  function Urls(a: Option<Address>): seq<string> {
    if a.Some? && a.value.urlList.Some? then a.value.urlList.value else []
  }

  function PlayUrls(item: Item): seq<string> {
    if item.video.Some? then Urls(item.video.value.playAddr) else []
  }

  function DownloadUrls(item: Item): seq<string> {
    if item.video.Some? then Urls(item.video.value.downloadAddr) else []
  }

  function NwmUrls(item: Item): seq<string> {
    if item.video.Some? && item.video.value.nwmVideoUrlList.Some? then item.video.value.nwmVideoUrlList.value else []
  }

  function Rates(item: Item): seq<Rate> {
    if item.video.Some? && item.video.value.bitRate.Some? then item.video.value.bitRate.value else []
  }

  function PlayUri(item: Item): Option<string> {
    if item.video.Some? && item.video.value.playAddr.Some? then item.video.value.playAddr.value.uri else None
  }

  // ---------------------------------------------------------------------------
  // extractNoWatermarkUrl
  // ---------------------------------------------------------------------------

  /** The rewrites applied to the last `play_addr` URL, each on the first
      occurrence only and in this order. */
  function RewritePlayUrl(u: string): string {
    var noMark := ReplaceFirst(u, "playwm", "play");
    var noWatermark := ReplaceFirst(noMark, "watermark=1", "watermark=0");
    var noRatio := ReplaceFirst(noWatermark, "&ratio=720p", "");
    ReplaceFirst(noRatio, "aweme.snssdk.com", "api.amemv.com")
  }

  /** The one rewrite applied to the last `download_addr` URL. */
  function RewriteDownloadUrl(u: string): string {
    ReplaceFirst(u, "watermark=1", "watermark=0")
  }

  /** The number a relational comparison converts a rate to: `null` becomes
      0, and `undefined` becomes NaN (None), which compares false with
      everything. */
  function RateOf(r: Rate): Option<int> {
    match r.bitRate
    case Undefined => None
    case Null => Some(0)
    case Number(n) => Some(n)
  }

  /** `prev.bit_rate > curr.bit_rate`. */
  predicate HigherRate(prev: Rate, curr: Rate) {
    RateOf(prev).Some? && RateOf(curr).Some? && RateOf(prev).value > RateOf(curr).value
  }

  /** `rates.reduce((prev, curr) => prev.bit_rate > curr.bit_rate ? prev : curr)`,
      a left fold that starts from the first entry. */
  function HighestQuality(rates: seq<Rate>): (r: Rate)
    requires |rates| > 0
    ensures r in rates
  {
    if |rates| == 1 then rates[0]
    else
      var prev := HighestQuality(rates[..|rates| - 1]);
      var curr := rates[|rates| - 1];
      if HigherRate(prev, curr) then prev else curr
  }

  /** `urls[urls.length - 1]`. */
  function Last(urls: seq<string>): string
    requires |urls| > 0
  {
    urls[|urls| - 1]
  }

  /** The strategy whose list decides the result: the first non-empty list. */
  datatype Source = FromPlayAddr | FromDownloadAddr | FromNwmList | FromBitRate | FromNothing

  function Rank(s: Source): nat {
    match s
    case FromPlayAddr => 0
    case FromDownloadAddr => 1
    case FromNwmList => 2
    case FromBitRate => 3
    case FromNothing => 4
  }

  function SourceOf(item: Item): Source {
    if |PlayUrls(item)| > 0 then FromPlayAddr
    else if |DownloadUrls(item)| > 0 then FromDownloadAddr
    else if |NwmUrls(item)| > 0 then FromNwmList
    else if |Rates(item)| > 0 then FromBitRate
    else FromNothing
  }

  /** `extractNoWatermarkUrl(videoInfo)`. */
  function ExtractNoWatermarkUrl(item: Item): (r: string)
    ensures SourceOf(item) == FromPlayAddr ==> r == RewritePlayUrl(Last(PlayUrls(item)))
    ensures SourceOf(item) == FromDownloadAddr ==> r == RewriteDownloadUrl(Last(DownloadUrls(item)))
    ensures SourceOf(item) == FromNwmList ==> r == NwmUrls(item)[0]
    ensures SourceOf(item) == FromBitRate ==>
      var best := Urls(HighestQuality(Rates(item)).playAddr);
      r == if |best| > 0 then ReplaceFirst(best[0], "playwm", "play") else ""
    ensures SourceOf(item) == FromNothing ==> r == ""
  {
    var play := PlayUrls(item);
    var download := DownloadUrls(item);
    var nwm := NwmUrls(item);
    var rates := Rates(item);
    if |play| > 0 then RewritePlayUrl(Last(play))
    else if |download| > 0 then RewriteDownloadUrl(Last(download))
    else if |nwm| > 0 then nwm[0]
    else if |rates| > 0 then
      var best := Urls(HighestQuality(rates).playAddr);
      if |best| > 0 then ReplaceFirst(best[0], "playwm", "play") else ""
    else ""
  }

  // ---------------------------------------------------------------------------
  // constructVideoUrl and fetchVideoInfo
  // ---------------------------------------------------------------------------

  const PlayPrefix := "https://aweme.snssdk.com/aweme/v1/play/?video_id="
  const AmemvPrefix := "https://api.amemv.com/aweme/v1/play/?video_id="
  const PlaySuffix := "&ratio=720p&line=0"

  /** `constructVideoUrl(videoId, videoInfo)`: the first of the candidate URLs,
      where a present `play_addr.uri` is put in front. */
  function ConstructVideoUrl(videoId: string, item: Item): (r: string)
    ensures r != ""
    ensures StartsWith(r, PlayPrefix) && !StartsWith(r, AmemvPrefix)
    ensures r[|PlayPrefix|..] == (if Present(PlayUri(item)) then PlayUri(item).value else videoId) + PlaySuffix
  {
    var urls := [PlayPrefix + videoId + PlaySuffix, AmemvPrefix + videoId + PlaySuffix];
    var candidates := if Present(PlayUri(item)) then [PlayPrefix + PlayUri(item).value + PlaySuffix] + urls else urls;
    PlayTemplate(if Present(PlayUri(item)) then PlayUri(item).value else videoId);
    candidates[0]
  }

  /** The first template, filled with `id`. */
  lemma PlayTemplate(id: string)
    ensures var r := PlayPrefix + id + PlaySuffix;
      && StartsWith(r, PlayPrefix) && !StartsWith(r, AmemvPrefix)
      && r[|PlayPrefix|..] == id + PlaySuffix
  {
    var r := PlayPrefix + (id + PlaySuffix);
    assert PlayPrefix + id + PlaySuffix == r;
    assert r[..|PlayPrefix|] == PlayPrefix;
    assert r[|PlayPrefix|..] == id + PlaySuffix;
    NotAmemv(r);
  }

  /** The two hosts differ at index 9: `aweme` against `api.a`. */
  lemma NotAmemv(r: string)
    requires StartsWith(r, PlayPrefix)
    ensures !StartsWith(r, AmemvPrefix)
  {
    assert r[..|PlayPrefix|][9] == r[9];
    assert PlayPrefix[9] == 'w' && AmemvPrefix[9] == 'p';
    if |AmemvPrefix| <= |r| {
      assert r[..|AmemvPrefix|][9] == r[9];
    }
  }

  function CoverUrl(item: Item): string {
    var covers := if item.video.Some? then Urls(item.video.value.cover) else [];
    if |covers| > 0 then covers[0] else ""
  }

  function AuthorName(item: Item): string {
    if item.author.Some? then item.author.value.nickname.GetOr("") else ""
  }

  function Duration(item: Item): int {
    if item.video.Some? then item.video.value.duration.GetOr(0) else 0
  }

  /** `fetchVideoInfo(videoId)` after its GET: `response` is the parsed body,
      None when the request failed. */
  function FetchVideoInfo(videoId: string, response: Option<ItemInfo>): (r: Result<VideoRecord, Failure>)
    ensures r.Ok? <==> response.Some? && response.value.itemList.Some? && |response.value.itemList.value| > 0
    ensures response.None? ==> r == Err(VideoInfoFailed(RequestFailed))
    ensures response.Some? && !r.Ok? ==> r == Err(VideoInfoFailed(EmptyItemList))
    ensures r.Ok? ==> r.value.videoUrl != ""
    ensures r.Ok? ==>
      var item := response.value.itemList.value[0];
      && (ExtractNoWatermarkUrl(item) != "" ==> r.value.videoUrl == ExtractNoWatermarkUrl(item))
      && (ExtractNoWatermarkUrl(item) == "" ==> r.value.videoUrl == ConstructVideoUrl(videoId, item))
      && r.value.coverUrl == CoverUrl(item)
      && r.value.title == item.desc.GetOr("")
      && r.value.author == AuthorName(item)
      && r.value.duration == Duration(item)
  {
    match response
    case None => Err(VideoInfoFailed(RequestFailed))
    case Some(data) =>
      if data.itemList.None? || |data.itemList.value| == 0 then Err(VideoInfoFailed(EmptyItemList))
      else
        var item := data.itemList.value[0];
        var extracted := ExtractNoWatermarkUrl(item);
        var videoUrl := if extracted == "" then ConstructVideoUrl(videoId, item) else extracted;
        if videoUrl == "" then Err(VideoInfoFailed(NoVideoUrl))
        else Ok(VideoRecord(videoUrl, CoverUrl(item), item.desc.GetOr(""), AuthorName(item), Duration(item)))
  }

  // ---------------------------------------------------------------------------
  // Properties of the strategies
  // ---------------------------------------------------------------------------

  /** Two items agree on every list consulted up to and including strategy `s`. */
  ghost predicate AgreeThrough(a: Item, b: Item, s: Source) {
    && PlayUrls(a) == PlayUrls(b)
    && (Rank(s) >= 1 ==> DownloadUrls(a) == DownloadUrls(b))
    && (Rank(s) >= 2 ==> NwmUrls(a) == NwmUrls(b))
    && (Rank(s) >= 3 ==> Rates(a) == Rates(b))
  }

  /** Once an earlier list is non-empty, the later ones are never consulted:
      items that agree up to the deciding strategy yield the same URL. */
  lemma {:induction false} LaterStrategiesIgnored(a: Item, b: Item)
    requires AgreeThrough(a, b, SourceOf(a))
    ensures SourceOf(b) == SourceOf(a)
    ensures ExtractNoWatermarkUrl(b) == ExtractNoWatermarkUrl(a)
  {
  }

  /** The result is empty only when no list applies, or when the chosen entry
      itself rewrites to the empty string. */
  lemma {:induction false} EmptyOnlyWhen(item: Item)
    requires ExtractNoWatermarkUrl(item) == ""
    ensures || SourceOf(item) == FromNothing
            || (SourceOf(item) == FromPlayAddr && RewritePlayUrl(Last(PlayUrls(item))) == "")
            || (SourceOf(item) == FromDownloadAddr && Last(DownloadUrls(item)) == "")
            || (SourceOf(item) == FromNwmList && NwmUrls(item)[0] == "")
            || (SourceOf(item) == FromBitRate &&
                var best := Urls(HighestQuality(Rates(item)).playAddr); |best| == 0 || best[0] == "")
  {
  }

  /** A play URL carrying none of the four markers is returned as it is. */
  lemma PlayRewriteWithoutMarkers(u: string)
    requires !Contains(u, "playwm") && !Contains(u, "watermark=1")
    requires !Contains(u, "&ratio=720p") && !Contains(u, "aweme.snssdk.com")
    ensures RewritePlayUrl(u) == u
  {
  }

  /** Every rewrite keeps or shortens the URL. */
  lemma {:induction false} PlayRewriteNeverLonger(u: string)
    ensures |RewritePlayUrl(u)| <= |u|
  {
  }

  /** Every entry's rate converts to a number (none is absent). */
  ghost predicate AllRated(rates: seq<Rate>) {
    forall i :: 0 <= i < |rates| ==> RateOf(rates[i]).Some?
  }

  /** Entry `k` has the highest rate and every later entry a strictly lower one. */
  ghost predicate LastMaximal(rates: seq<Rate>, k: nat)
    requires AllRated(rates)
  {
    && k < |rates|
    && (forall j :: 0 <= j < |rates| ==> RateOf(rates[j]).value <= RateOf(rates[k]).value)
    && (forall j :: k < j < |rates| ==> RateOf(rates[j]).value < RateOf(rates[k]).value)
  }

  /** With no rate absent, the fold keeps the LAST entry of highest rate:
      a tie replaces the earlier choice. `k` is the index of the kept entry. */
  lemma {:induction false} HighestQualityIsLastMaximal(rates: seq<Rate>) returns (k: nat)
    requires |rates| > 0 && AllRated(rates)
    ensures LastMaximal(rates, k) && HighestQuality(rates) == rates[k]
  {
    if |rates| == 1 {
      k := 0;
    } else {
      var last := |rates| - 1;
      var init := rates[..last];
      assert AllRated(init) by {
        forall j | 0 <= j < |init| ensures RateOf(init[j]).Some? {
          assert init[j] == rates[j];
        }
      }
      var i := HighestQualityIsLastMaximal(init);
      k := FoldStep(rates, i);
    }
  }

  /** One step of the fold: the index kept for the prefix, against the last entry. */
  lemma FoldStep(rates: seq<Rate>, i: nat) returns (k: nat)
    requires |rates| > 1 && AllRated(rates)
    requires AllRated(rates[..|rates| - 1])
    requires LastMaximal(rates[..|rates| - 1], i)
    requires HighestQuality(rates[..|rates| - 1]) == rates[..|rates| - 1][i]
    ensures LastMaximal(rates, k) && HighestQuality(rates) == rates[k]
  {
    var last := |rates| - 1;
    var init := rates[..last];
    assert init[i] == rates[i];
    var best := RateOf(rates[i]).value;
    var top := RateOf(rates[last]).value;
    forall j | 0 <= j < last ensures RateOf(rates[j]).value <= best {
      assert init[j] == rates[j];
    }
    if best > top {
      forall j | i < j < last ensures RateOf(rates[j]).value < best {
        assert init[j] == rates[j];
      }
      k := i;
    } else {
      k := last;
    }
  }

  /** A `null` rate compares as 0, so a positive rate before it is kept. */
  lemma NullRateLosesToPositive(a: Option<Address>, b: Option<Address>, n: int)
    requires n > 0
    ensures HighestQuality([Rate(Number(n), a), Rate(Null, b)]) == Rate(Number(n), a)
  {
    assert [Rate(Number(n), a), Rate(Null, b)][..1] == [Rate(Number(n), a)];
  }

  /** An absent rate never compares greater, so the later entry replaces the
      earlier one whatever the earlier rate is. */
  lemma UndefinedRateIsReplaced(prev: Rate, curr: Rate)
    requires prev.bitRate.Undefined? || curr.bitRate.Undefined?
    ensures HighestQuality([prev, curr]) == curr
  {
    assert [prev, curr][..1] == [prev];
  }

  /** The fallback URL takes the API's `uri` over the video ID. */
  lemma {:induction false} FallbackPrefersUri(videoId: string, item: Item)
    requires Present(PlayUri(item))
    ensures ConstructVideoUrl(videoId, item) == PlayPrefix + PlayUri(item).value + PlaySuffix
  {
    var r := ConstructVideoUrl(videoId, item);
    assert r == r[..|PlayPrefix|] + r[|PlayPrefix|..];
  }

  /** The item-info stage never fails for want of a URL: the fallback always
      supplies one. Items here are records; a `null` entry of `item_list`,
      which would send both extractors into their `catch`, is not modelled. */
  lemma {:induction false} NeverMissingUrl(videoId: string, response: Option<ItemInfo>)
    ensures FetchVideoInfo(videoId, response) != Err(VideoInfoFailed(NoVideoUrl))
  {
  }
}
