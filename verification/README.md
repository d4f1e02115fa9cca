# Douyin share-link resolver, modelled in Dafny

This project models the core of a service that turns a Douyin share link into
the address of the watermark-free video. The model covers four parts:

- `ApiVideoRepository`. It classifies a link against the allow-list regex and
  follows a short link's redirect, repairing a `Location` whose `?` went
  missing. It extracts the video ID from the URL path, then the `item_id`
  parameter, then five HTML patterns. It asks the item-info API and picks the
  URL through four ordered strategies, falling back to a constructed template.
  It caches the finished `Video` under `douyin:video:<link>`, and a batch
  lookup skips the links that fail.
- The `Video` entity, with its one-way `setNoWatermarkUrl`.
- The `VideoInfo` value object.
- `VideoParserService`, which refuses unprocessed videos and maps a batch.

The network is not modelled. Every answer the repository gets from outside is
a parameter. The `Env` datatype holds one total function per kind of request:

- the reply to the no-redirect GET of a short link;
- the `item_id` query parameter of a URL;
- the body of a page GET;
- the parsed body of an item-info GET, keyed by the API URL built from the ID.

Failures are values of `Failures.Failure` carried in a `Result`, one
constructor per `throw` of the source. The cache is a `map` threaded through
each call. `Video` and `VideoInfo` are immutable datatypes, so
`setNoWatermarkUrl` returns an updated copy.

Modules:

| module | file | models |
|---|---|---|
| `Wrappers` | wrappers.dfy | `Option`, `Result` |
| `Failures` | errors.dfy | the errors the pipeline throws |
| `Strings` | strings.dfy | `includes`, first-occurrence `replace(str, str)` |
| `Patterns` | patterns.dfy | the regular expressions used, as data, and their leftmost match |
| `ShareLinks` | share_links.dfy | `isValidDouyinUrl`, `processShareUrl` and its redirect repair |
| `VideoIds` | video_ids.dfy | `extractVideoId` |
| `Metadata` | metadata.dfy | `extractNoWatermarkUrl`, `constructVideoUrl`, `fetchVideoInfo` |
| `VideoEntity` | video_entity.dfy | `Video` |
| `VideoInfoValue` | video_info.dfy | `VideoInfo` |
| `Repository` | repository.dfy | `findByShareUrl`, `findByShareUrls` |
| `VideoParser` | video_parser.dfy | `VideoParserService` |

### Behaviour worth noting

- **Bit-rate ties.** The bit-rate fold (src/domains/douyin/infrastructure/repositories/api-video.repository.ts:394-396) keeps `prev` only
  when its rate is strictly greater, so among entries of equal maximal rate
  it selects the last one (`Metadata.HighestQualityIsLastMaximal`). A `null`
  rate compares as 0 and an absent one compares false with everything
  (`Metadata.NullRateLosesToPositive`, `Metadata.UndefinedRateIsReplaced`).
- **Link guard.** The guard of `processShareUrl` (src/domains/douyin/infrastructure/repositories/api-video.repository.ts:125-130) is a
  substring test for `douyin.com`; its `iesdouyin.com` test is subsumed by
  it. The allow-list classifier (src/domains/douyin/infrastructure/repositories/api-video.repository.ts:106-115) is a separate, stricter test:
  `"douyin.com"` passes the guard and is not a valid link
  (`ShareLinks.GuardAdmitsNonUrl`).
- **An empty `extractNoWatermarkUrl` result.** It arises when no list
  applies, and also when the chosen entry itself rewrites to `''`
  (src/domains/douyin/infrastructure/repositories/api-video.repository.ts:354-411), for example a play URL equal to `&ratio=720p`
  (`Metadata.EmptyOnlyWhen`).
- **`playwm` can survive.** `setNoWatermarkUrl` (src/domains/douyin/domain/entities/video.entity.ts:35) replaces only the
  first `playwm`, so a stored URL can still contain one: `playplaywmwm`
  becomes `playplaywm` (`VideoEntity.StoredUrlCanKeepMarker`).
- **The `api.amemv.com` template is never returned.** `constructVideoUrl`
  (src/domains/douyin/infrastructure/repositories/api-video.repository.ts:427-445) builds it but always returns the first candidate
  (`Metadata.ConstructVideoUrl`).

### Regular expressions

Each regex of the source is a sequence of terms. A term is a literal, one
character of a class, or a greedy run of one class, and may be a capture
group. `Patterns.MatchAt` matches a run possessively (maximal munch). For every
pattern used here this agrees with JavaScript's backtracking: each run is
followed either by nothing or by an atom whose first character lies outside
the run's class. `Patterns.FindFrom` returns the leftmost match, as
`String.prototype.match` without the `g` flag does. `ShareLinks` decides the
anchored allow-list regex directly, and `ShareLinks.DomainPatternIff` proves
that decision equal to the plain statement of the allow-list.

## Model

| member | source | states |
|---|---|---|
| `ShareLinks.IsValidDouyinUrl` | src/domains/douyin/infrastructure/repositories/api-video.repository.ts:106-115 | `isValid` holds exactly when the URL starts with `http://` or `https://`, then an optional `www.`, then `douyin.com`, `iesdouyin.com` or `v.douyin.com`, then `/`; `platform` is always `douyin` |
| `ShareLinks.DomainPatternIff` | src/domains/douyin/infrastructure/repositories/api-video.repository.ts:21-22 | the anchored regex accepts a URL exactly when some scheme, `www.` choice and host spell a prefix of it |
| `ShareLinks.AllowListPassesGuard` | src/domains/douyin/infrastructure/repositories/api-video.repository.ts:125-130 | every link the classifier accepts contains `douyin.com`, so it passes the pipeline's guard |
| `ShareLinks.GuardAdmitsNonUrl` | src/domains/douyin/infrastructure/repositories/api-video.repository.ts:125-130 | the guard is weaker than the classifier: `douyin.com` passes it and is not a valid link |
| `ShareLinks.RepairLocation` | src/domains/douyin/infrastructure/repositories/api-video.repository.ts:155-170 | the repaired location is either the location itself, or one character longer with a `?` that the location lacked |
| `ShareLinks.RepairInsertsDelimiter` | src/domains/douyin/infrastructure/repositories/api-video.repository.ts:155-167 | for a location without `?` whose leftmost `/video/<digits><non-digit>` site is at `p`, the repair inserts `?` between the digits and the following character, and changes nothing else |
| `ShareLinks.RepairWithoutSite` | src/domains/douyin/infrastructure/repositories/api-video.repository.ts:155-170 | a location with no such site is returned unchanged |
| `ShareLinks.RepairIdempotent` | src/domains/douyin/infrastructure/repositories/api-video.repository.ts:155-170 | repairing a repaired location changes nothing |
| `ShareLinks.ProcessShareUrl` | src/domains/douyin/infrastructure/repositories/api-video.repository.ts:121-204 | fails as invalid exactly when the link lacks `douyin.com`; a non-short link passes through; a short link with a location yields the repaired location whether the reply succeeded or failed; a short link whose reply succeeded without a location is returned unchanged; it fails as a redirect failure exactly when the reply failed without a location; a result is never empty |
| `VideoIds.ExtractVideoId` | src/domains/douyin/infrastructure/repositories/api-video.repository.ts:210-273 | an extracted ID is never empty; every failure is a failed page fetch or an ID not found |
| `VideoIds.FirstPatternFrom` | src/domains/douyin/infrastructure/repositories/api-video.repository.ts:260-266 | the index returned is the first pattern, in listed order, that matches with a non-empty group; no index means none does |
| `VideoIds.UrlIdIsLeftmostPath` | src/domains/douyin/infrastructure/repositories/api-video.repository.ts:214-216 | the URL regex captures the maximal digit run after the leftmost `/video/<digit>` |
| `VideoIds.NoPathNoUrlId` | src/domains/douyin/infrastructure/repositories/api-video.repository.ts:214-220 | without a `/video/<digit>` site the URL regex finds nothing |
| `VideoIds.PathIdWins` | src/domains/douyin/infrastructure/repositories/api-video.repository.ts:214-220 | an ID in the path wins over `item_id` and the page |
| `VideoIds.QueryIdSecond` | src/domains/douyin/infrastructure/repositories/api-video.repository.ts:223-249 | without a path ID a non-empty `item_id` is used; without either, a failed page fetch is an error |
| `VideoIds.HtmlIdLast` | src/domains/douyin/infrastructure/repositories/api-video.repository.ts:252-266 | otherwise the ID comes from the first HTML pattern, in listed order, that matches |
| `VideoIds.HtmlIdNotFound` | src/domains/douyin/infrastructure/repositories/api-video.repository.ts:267-272 | when no HTML pattern matches, extraction fails with "not found" |
| `Metadata.ExtractNoWatermarkUrl` | src/domains/douyin/infrastructure/repositories/api-video.repository.ts:344-416 | the URL comes from the first non-empty list among play, download, no-watermark and bit-rate: the last play URL rewritten four times, the last download URL with only the watermark rewrite, the first no-watermark URL as it is, the first play URL of the best bit rate with `playwm` rewritten; `''` when no list applies |
| `Metadata.LaterStrategiesIgnored` | src/domains/douyin/infrastructure/repositories/api-video.repository.ts:348-390 | two items that agree up to the deciding list give the same URL: a later list is never consulted |
| `Metadata.EmptyOnlyWhen` | src/domains/douyin/infrastructure/repositories/api-video.repository.ts:354-411 | an empty result means no list applied, or the chosen entry itself rewrites to `''` |
| `Metadata.PlayRewriteWithoutMarkers` | src/domains/douyin/infrastructure/repositories/api-video.repository.ts:357-361 | a play URL with none of the four markers is returned unchanged |
| `Metadata.PlayRewriteNeverLonger` | src/domains/douyin/infrastructure/repositories/api-video.repository.ts:357-361 | the play rewrites never lengthen the URL |
| `Metadata.HighestQualityIsLastMaximal` | src/domains/douyin/infrastructure/repositories/api-video.repository.ts:394-396 | with no rate absent, the fold returns the last entry of maximal rate (a `null` rate counting as 0): no entry has a higher rate, and every later one a strictly lower rate |
| `Metadata.FoldStep` | src/domains/douyin/infrastructure/repositories/api-video.repository.ts:394-396 | one step of the fold keeps the last maximal entry |
| `Metadata.NullRateLosesToPositive` | src/domains/douyin/infrastructure/repositories/api-video.repository.ts:394-396 | a positive rate followed by a `null` one keeps the positive entry, since `null` compares as 0 |
| `Metadata.UndefinedRateIsReplaced` | src/domains/douyin/infrastructure/repositories/api-video.repository.ts:394-396 | when either of two entries has no rate, the comparison is false and the later entry is kept |
| `Metadata.ConstructVideoUrl` | src/domains/douyin/infrastructure/repositories/api-video.repository.ts:422-450 | the fallback is never empty and is always the `aweme.snssdk.com` template, never the `api.amemv.com` one, with the item's `uri` when present and the video ID otherwise |
| `Metadata.PlayTemplate` | src/domains/douyin/infrastructure/repositories/api-video.repository.ts:427-445 | the `aweme.snssdk.com` template starts with its play prefix, not with the `api.amemv.com` one, and carries the ID followed by the fixed ratio suffix |
| `Metadata.FallbackPrefersUri` | src/domains/douyin/infrastructure/repositories/api-video.repository.ts:435-445 | a present `play_addr.uri` is used in place of the video ID |
| `Metadata.FetchVideoInfo` | src/domains/douyin/infrastructure/repositories/api-video.repository.ts:279-338 | it succeeds exactly when the item list is non-empty, failing with a request error otherwise; its URL is the extracted one, or the fallback when that is empty, and is never empty; cover, title and author default to `''`, duration to 0 |
| `Metadata.NeverMissingUrl` | src/domains/douyin/infrastructure/repositories/api-video.repository.ts:317-324 | for every (non-null) item, the "no URL" error is unreachable, since the fallback always supplies one |
| `VideoEntity.NewVideo` | src/domains/douyin/domain/entities/video.entity.ts:12-28 | a new video keeps every argument verbatim, has no no-watermark URL and is not processed |
| `VideoEntity.SetNoWatermarkUrl` | src/domains/douyin/domain/entities/video.entity.ts:34-41 | afterwards the video is processed, for every URL including `''`; the stored URL is the first-occurrence `playwm` and `aweme.snssdk.com` rewrite; every other field is unchanged |
| `VideoEntity.StoredUrlWithoutMarkers` | src/domains/douyin/domain/entities/video.entity.ts:35-36 | a URL with neither marker is stored as it is |
| `VideoEntity.StoredUrlNonEmpty` | src/domains/douyin/domain/entities/video.entity.ts:35-36 | a non-empty URL is stored non-empty |
| `VideoEntity.StoredUrlCanKeepMarker` | src/domains/douyin/domain/entities/video.entity.ts:35 | a stored URL can still contain `playwm`, because only the first occurrence is replaced |
| `VideoInfoValue.Create` | src/domains/douyin/domain/value-objects/video-info.vo.ts:18-32 | the factory yields the constructor's value field by field |
| `VideoInfoValue.FromEntity` | src/domains/douyin/domain/value-objects/video-info.vo.ts:37-45 | the URL shown is the no-watermark URL when present and non-empty, the entity's URL otherwise; the other fields are copied |
| `Repository.Resolve` | src/domains/douyin/infrastructure/repositories/api-video.repository.ts:48-75 | a link without `douyin.com` fails as invalid; a resolved video is processed, with a non-empty no-watermark URL and a non-empty ID |
| `Repository.ResolveStages` | src/domains/douyin/infrastructure/repositories/api-video.repository.ts:48-75 | a resolved video records each stage: its URL is the processed link, its ID the one extracted from that link, its no-watermark URL the stored form of the item-info URL, and its title, author, cover and duration the item-info record's |
| `Repository.ResolveFailures` | src/domains/douyin/infrastructure/repositories/api-video.repository.ts:48-62 | the first stage that fails, in the order link, ID, item info, gives the lookup's error unchanged |
| `Repository.FindByShareUrl` | src/domains/douyin/infrastructure/repositories/api-video.repository.ts:37-81 | a hit returns the cached video and leaves the cache alone; a miss resolves; a success is cached under its own key; a failure leaves the cache alone |
| `Repository.LookupInvariant` | src/domains/douyin/infrastructure/repositories/api-video.repository.ts:41-78 | a lookup adds only its own key and only on success; no existing entry changes; a cache of complete videos stays one |
| `Repository.FindByShareUrls` | src/domains/douyin/infrastructure/repositories/api-video.repository.ts:87-100 | at most one video per link |
| `Repository.CollectAppend` | src/domains/douyin/infrastructure/repositories/api-video.repository.ts:87-100 | the loop over `a + b` is the loop over `a` followed by the loop over `b` from the cache `a` left, whatever the single-link lookup does |
| `Repository.BatchInvariant` | src/domains/douyin/infrastructure/repositories/api-video.repository.ts:87-100 | a batch changes no existing entry; from a cache of complete videos the cache stays so and every video returned is complete; every video returned is the entry cached for one of the links |
| `Repository.KeysDistinct` | src/domains/douyin/infrastructure/repositories/api-video.repository.ts:41 | different links have different cache keys |
| `Repository.HitIgnoresEnv` | src/domains/douyin/infrastructure/repositories/api-video.repository.ts:41-46 | a cache hit succeeds without consulting any stage |
| `Repository.RepeatHitsCache` | src/domains/douyin/infrastructure/repositories/api-video.repository.ts:41-78 | after a success, looking the same link up again returns the same video and cache, whatever the world answers |
| `Repository.InvalidLinkNeverCached` | src/domains/douyin/infrastructure/repositories/api-video.repository.ts:41-50 | an invalid link fails and leaves the cache alone |
| `Repository.BatchAppend` | src/domains/douyin/infrastructure/repositories/api-video.repository.ts:87-100 | a batch over `a + b` is the batch over `a` followed by the batch over `b` from the cache `a` left |
| `Repository.BatchSingle` | src/domains/douyin/infrastructure/repositories/api-video.repository.ts:90-97 | a one-link batch keeps the video on success and drops the link on failure |
| `Repository.BatchKeepsResolvable` | src/domains/douyin/infrastructure/repositories/api-video.repository.ts:87-100 | when every link is cached or resolves, the batch has one video per link |
| `Repository.BatchOfFailures` | src/domains/douyin/infrastructure/repositories/api-video.repository.ts:87-100 | links that are neither cached nor resolvable yield no video and leave the cache unchanged |
| `VideoParser.CheckProcessed` | src/domains/douyin/domain/services/video-parser.service.ts:19-23 | a found video gives "not processed" exactly when it is unprocessed and its value otherwise; a repository error passes through |
| `VideoParser.ParseVideo` | src/domains/douyin/domain/services/video-parser.service.ts:16-24 | from a well-formed cache the "not processed" error is unreachable, the result succeeds exactly when the repository does, and the URL shown is the stored no-watermark URL |
| `VideoParser.ProcessedInfos` | src/domains/douyin/domain/services/video-parser.service.ts:37-39 | at most one value per video |
| `VideoParser.AllProcessedAllShown` | src/domains/douyin/domain/services/video-parser.service.ts:37-39 | when every video is processed, every one is shown, in order |
| `VideoParser.NoneProcessedNoneShown` | src/domains/douyin/domain/services/video-parser.service.ts:37-39 | when no video is processed, nothing is shown |
| `VideoParser.ProcessedInfosAppend` | src/domains/douyin/domain/services/video-parser.service.ts:37-39 | the filter and map keep order: the values of `a + b` are those of `a` followed by those of `b` |
| `VideoParser.ParseBatch` | src/domains/douyin/domain/services/video-parser.service.ts:33-39 | an empty list is refused, and exactly that; otherwise the values of the processed videos |
| `VideoParser.ParseBatchVideos` | src/domains/douyin/domain/services/video-parser.service.ts:30-40 | refused exactly when the repository found nothing; otherwise at most one value per link; the cache is the repository's |
| `VideoParser.BatchShowsEveryVideo` | src/domains/douyin/domain/services/video-parser.service.ts:30-40 | from a cache of complete videos, every video found is shown, in order, with its stored no-watermark URL |
| `VideoParser.CheckUrl` | src/domains/douyin/domain/services/video-parser.service.ts:46-48 | valid exactly on the allow-list, platform `douyin` |
| `VideoParser.NothingParsed` | src/domains/douyin/domain/services/video-parser.service.ts:31-35 | a batch whose links all fail and none is cached is refused and leaves the cache alone |
| `VideoParser.InvalidLinksNothingParsed` | src/domains/douyin/domain/services/video-parser.service.ts:31-35 | from an empty cache, a batch of links without `douyin.com` is refused |
| `VideoParser.EveryLinkShown` | src/domains/douyin/domain/services/video-parser.service.ts:30-40 | from a well-formed cache, when every link is cached or resolves, the batch shows one value per link |
| `Strings.ReplaceFirst` | src/domains/douyin/domain/entities/video.entity.ts:35-36 | `replace(str, str)` rewrites only the leftmost occurrence: the result is the input with that occurrence replaced, and the input itself when there is none |
| `Patterns.FindFrom` | src/domains/douyin/infrastructure/repositories/api-video.repository.ts:215 | the match returned starts at the leftmost position where the pattern matches |

## Left out

- HTTP. Headers, user agents, timeouts and status validation are not modelled. Every reply is a parameter of `Repository.Env`.
- The WHATWG URL parser. `new URL(url).searchParams.get('item_id')` is a parameter; a URL that does not parse gives None.
- The general regular-expression engine. The patterns are written in `Patterns`' small language. The possessive matcher agrees with backtracking for these patterns only.
- Cache expiry. The one-hour TTL and the cache store's eviction are not modelled: an entry never expires.
- Asynchrony, logging and the NestJS wiring (decorators, injection, module setup) are left out.
- The repository's other private methods and the HTTP client are not part of this model, because the core never calls them.
- Numbers are integers. `bit_rate` and `duration` are JavaScript numbers; fractional values are not modelled. A rate is absent, `null` or a number, so the fold compares `null` as 0 and an absent rate as NaN, as JavaScript's `>` does; `duration` is `Option<int>`, since `|| 0` treats `null` and absence alike.
- Metadata.NeverMissingUrl: holds only for items that are objects. In the source an `item_list` entry that is `null` sends both `extractNoWatermarkUrl` and `constructVideoUrl` into their `catch`, which returns `''` (api-video.repository.ts:412-415 and :446-449), and the throw at :322-324 is then reachable; items here are always records.
- JavaScript values of the wrong type (a non-string URL in a list, a non-array `item_list`). The `try`/`catch` blocks that turn such values into `''` are not modelled: every field is typed.
- A cached value is returned when it is present. The source tests its truthiness, and every stored `Video` object is truthy.
