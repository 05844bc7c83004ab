# my-subs feed aggregation and TTL cache, modelled in Dafny

my-subs is a small YouTube subscription reader. Its server side does two things.

- **Feed aggregation** is `RSSService.fetchFeeds` in `src/lib/rssService.ts`. The `GET /api/feeds` handler repeats it almost line for line, with JSON error bodies in place of exceptions.
  - It reads a list of channel ids.
  - For each id it fetches the YouTube RSS feed at a fixed prefix followed by the trimmed id.
  - It turns every feed item into a `Video` record, using `||` defaults, a publish-date cascade and a four-step thumbnail chain.
  - It skips any channel whose response is not ok or whose processing throws.
  - Finally it sorts everything newest first.
- **`CacheService`** is an in-memory map from keys to `{data, timestamp, ttl}` entries. Expired entries are evicted lazily by `get`, swept by `cleanup`, and counted by `getCacheInfo`.

This project models both, module by module:

| file | module | models |
|---|---|---|
| `types.dfy` | `Types` | the `Video` record, the raw feed item as the RSS parser delivers it, per-channel fetch outcomes, the configuration |
| `js_string.dfy` | `JsString` | string truthiness with `\|\|`, the `\s`/`trim` whitespace set, `trim` |
| `dates.dfy` | `Dates` | `replace(/\s+GMT$/, '')` and `parseDate` |
| `video_id.dfy` | `VideoId` | the four video-id regular expressions as a leftmost-match scanner |
| `thumbnails.dfy` | `Thumbnails` | the thumbnail chain media:group → media:thumbnail → link → placeholder |
| `items.dfy` | `Items` | the `feed.items.map` callback and the map itself |
| `newest_first.dfy` | `NewestFirst` | the stable newest-first sort |
| `rss_service.dfy` | `RssService` | one channel's contribution, the channel loop, `fetchFeeds` |
| `feeds_route.dfy` | `FeedsRoute` | the `GET /api/feeds` handler |
| `cache_service.dfy` | `CacheService` | the `Map`, its operations as functions, and the `Cache` class |

Several things the code cannot provide are parameters of the model (see "Left out").
- The engine's date-string parser is `parse: string -> Option<int>`. It gives `None` for an Invalid Date.
- Fetching plus parsing one feed URL is `fetch: string -> FetchOutcome`.
- `Date.now()` / `new Date()` is `now: int`, in milliseconds.
- The state of the subscriptions file is a `Config` value: missing, unreadable, without a feed list, or a list of ids.

The `parseDate`, thumbnail, record and sort code of `src/routes/api/feeds/+server.ts` is the same code as in `rssService.ts`. The same functions model it:
- lines 10-56 are `Dates.ParseDate`;
- lines 108-198 are `Items.NormalizeAll`;
- lines 210-214 are `NewestFirst.Sort`.

Modelling choices:

- **JS strings.** An absent optional string field behaves exactly like `""`, because every use goes through truthiness. So the raw item's fields are plain strings, with `""` standing for absent.
- **Thrown errors.** A TypeError from `.$.url` on an element without attributes is an `Err`. So is a TypeError from an empty `media:group` thumbnail array, because `typeof [] === 'object'` and `[].$` is undefined. Either error aborts the `map` and drops the whole channel through the loop's `catch`.
- **Map order.** The cache's `Map` is a sequence of slots with distinct keys, in insertion order. `Map.prototype.set` on a present key keeps its position, and `getCacheInfo` reports keys in that order.
- **Sort.** `Array.prototype.sort` is stable, so the sort is a stable insertion sort, and `NewestFirst.SortUnique` shows that it produces the only stable newest-first ordering.

## Model

| member | source | states |
|---|---|---|
| JsString.Trim | src/lib/rssService.ts:72 | `trim()` removes exactly the maximal whitespace runs at both ends: the result is the infix between them and neither starts nor ends with whitespace |
| JsString.TrimIdempotent | src/lib/rssService.ts:72 | trimming twice is the same as trimming once |
| Dates.StripTrailingGmt | src/lib/rssService.ts:28 | without a `\s+GMT` match at the end the string is unchanged; with one, the leftmost match (the whole whitespace run and `GMT`) is removed and the rest is a prefix of the input |
| Dates.ParseDate | src/lib/rssService.ts:9-41 | empty date string gives `now`; a valid direct parse wins; otherwise a valid parse of the GMT-stripped string; otherwise `now`; the result is always one of these three candidates (the function is total) |
| Dates.NoGmtSuffixFallsBackToNow | src/lib/rssService.ts:27-35 | a string that does not end in whitespace followed by `GMT` and fails to parse directly yields `now`: the retry cannot help |
| Dates.StripTrailingGmtExample | src/lib/rssService.ts:28 | `"Mon, 01 Jan 2024 00:00:00  GMT"` loses both spaces and `GMT` |
| VideoId.Capture | src/lib/rssService.ts:118-121 | `s.match(/prefix([^stop]+)/)?.[1]`: None exactly when the pattern matches nowhere; otherwise the maximal non-empty run of non-stop characters after the leftmost match |
| VideoId.ExtractVideoId | src/lib/rssService.ts:113-145 | the id is non-empty and holds no `&`, and no `/` or `?` when it comes from a path form; there is no id exactly when none of `[?&]v=`, `/shorts/`, `/embed/`, `/watch?v=` matches |
| VideoId.WatchMatchIsQueryMatch | src/lib/rssService.ts:118-145 | wherever `/watch?v=` matches, `[?&]v=` matches six characters later |
| VideoId.WatchUnreachable | src/lib/rssService.ts:139-145 | whenever `/watch?v=` captures, `[?&]v=` captures too, so the fourth pattern never supplies the id |
| VideoId.ThreePatternsSuffice | src/lib/rssService.ts:115-145 | the extracted id is the first capture of `[?&]v=`, `/shorts/`, `/embed/`, in that order |
| VideoId.WatchLinkId | src/lib/rssService.ts:118-121 | the id of `https://youtube.com/watch?v=ABC123` is `ABC123` |
| Thumbnails.GroupStep | src/lib/rssService.ts:98-105 | the `media:group` read: the first element's URL, or `""` when absent; it throws on an element without `$` and on an empty array; stated through ResolveThumbnail and StructuredThumbnailWins |
| Thumbnails.AltStep | src/lib/rssService.ts:108-110 | the `media:thumbnail[0]` fallback, read only while no URL is set; stated through ResolveThumbnail |
| Thumbnails.LinkStep | src/lib/rssService.ts:113-159 | the link fallback, building the `maxresdefault` URL from the extracted id only while no URL is set; stated through ResolveThumbnail and WatchLinkThumbnail |
| Thumbnails.ResolveThumbnail | src/lib/rssService.ts:95-171 | the thumbnail is never empty and is the first non-empty offer of media:group, `media:thumbnail[0]`, the link's maxresdefault URL, the placeholder; it throws exactly when the media:group read throws or, with no group URL, the `media:thumbnail[0]` read throws |
| Thumbnails.StructuredThumbnailWins | src/lib/rssService.ts:98-110 | a non-empty media:group URL is the thumbnail whatever the other sources hold |
| Thumbnails.WatchLinkThumbnail | src/lib/rssService.ts:113-157 | an item with link `https://youtube.com/watch?v=ABC123` and no structured thumbnail gets `https://img.youtube.com/vi/ABC123/maxresdefault.jpg` |
| Items.NormalizeItem | src/lib/rssService.ts:175-182 | throws exactly when thumbnail resolution throws; otherwise title is the item title or `Untitled`, link the item link or `""`, channel the channel name, publishDate the `parseDate` of pubDate, description contentSnippet, else content, else `""` |
| Items.NormalizeAll | src/lib/rssService.ts:93-183 | `items.map(callback)`: succeeds exactly when every item normalises, with one record per item in item order, each carrying the channel name |
| NewestFirst.InsertPerm | src/lib/rssService.ts:195-199 | inserting a video adds exactly that video and nothing else |
| NewestFirst.InsertSorted | src/lib/rssService.ts:195-199 | inserting into a newest-first sequence keeps it newest first |
| NewestFirst.InsertBelowHead | src/lib/rssService.ts:195-199 | an older video inserted below the head of a newest-first sequence leaves the head first |
| NewestFirst.Sort | src/lib/rssService.ts:195-199 | the sorted list is newest first and a permutation of its input |
| NewestFirst.InsertWithDate | src/lib/rssService.ts:195-199 | inserting a video puts it in front of the videos of its own date and leaves every other date's videos as they were |
| NewestFirst.SortStable | src/lib/rssService.ts:195-199 | stability: for every date the videos of that date keep their input order |
| NewestFirst.SortUnique | src/lib/rssService.ts:195-199 | any newest-first sequence that keeps each date's input order equals the sort's result |
| NewestFirst.SortedAgree | src/lib/rssService.ts:195-199 | two newest-first sequences with the same videos in the same order per date are equal |
| RssService.ChannelVideos | src/lib/rssService.ts:70-191 | one channel's contribution, stated by NoItemsNoVideos and ItemsContribution |
| RssService.NoItemsNoVideos | src/lib/rssService.ts:80-92 | a channel whose response is not ok, whose fetch or parse throws, or whose feed has no item list contributes nothing |
| RssService.ItemsContribution | src/lib/rssService.ts:92-185 | a channel with an item list contributes exactly one record per item in item order, each labelled with `feed.title` or the trimmed id, unless some item throws, in which case nothing |
| RssService.Accumulate | src/lib/rssService.ts:66-192 | the channel loop's result as a function of the id list, stated by CollectVideos, AccumulateAppend, SkippedChannel, AccumulateMembers and AccumulateLength |
| RssService.Aggregate | src/lib/rssService.ts:66-199 | the sorted aggregate, stated by FetchFeeds, FeedsRoute.Get and MiddleChannelFails |
| RssService.CollectVideos | src/lib/rssService.ts:66-192 | the channel loop's accumulator is the concatenation, in configuration order, of every channel's contribution |
| RssService.FetchFeeds | src/lib/rssService.ts:43-203 | missing file and missing feed list throw their messages, a file-reading exception propagates, and a feed list yields the newest-first permutation of all contributions |
| RssService.AccumulateAppend | src/lib/rssService.ts:69-192 | looping over two id lists one after the other gives the concatenation of their results |
| RssService.SkippedChannel | src/lib/rssService.ts:188-191 | a channel contributing nothing leaves the rest of the aggregate exactly as if it were not configured |
| RssService.AccumulateMembers | src/lib/rssService.ts:69-192 | a video is aggregated exactly when some configured channel contributes it |
| RssService.AccumulateLength | src/lib/rssService.ts:185 | each channel adds exactly its own number of videos to the accumulator |
| RssService.MiddleChannelFails | src/lib/rssService.ts:69-199 | with three channels of which the middle one fails, the aggregate is the first channel's videos followed by the third's, and the sorted result holds exactly those |
| FeedsRoute.Get | src/routes/api/feeds/+server.ts:58-225 | a missing file gives `{[], 'Subscriptions file not found'}`, a file-reading exception `{[], 'Failed to fetch feeds'}`, no feed list `{[], 'Invalid subscriptions format'}`; a feed list gives the newest-first permutation of all contributions without error; an error body carries no videos |
| CacheService.EffectiveTtl | src/lib/cacheService.ts:25 | `ttl \|\| defaultTTL`: an absent or zero ttl becomes 900000 ms, any other ttl is kept |
| CacheService.Lookup | src/lib/cacheService.ts:31 | `Map.get` on the insertion-ordered slots, stated by LookupUnique, LookupMissing, LookupFound and LookupSome |
| CacheService.LookupUnique | src/lib/cacheService.ts:31 | with distinct keys, every stored slot is what its key finds |
| CacheService.LookupMissing | src/lib/cacheService.ts:31-32 | a key no slot carries finds nothing |
| CacheService.LookupFound | src/lib/cacheService.ts:31-32 | what a key finds is a stored slot, and it finds nothing only when no slot carries it |
| CacheService.LookupSome | src/lib/cacheService.ts:68 | a key finds an entry exactly when it is among the reported keys |
| CacheService.LookupSub | src/lib/cacheService.ts:84-89 | looking a key up in a distinct-keyed sub-collection finds the full collection's entry when that slot is kept, and nothing otherwise |
| CacheService.Put | src/lib/cacheService.ts:27 | `Map.set`, stated by PutKeys, PutLookup and PutDistinct |
| CacheService.PutKeys | src/lib/cacheService.ts:27 | `Map.set` keeps a present key in its position and appends a new key at the end, so the reported key order is insertion order |
| CacheService.PutLookup | src/lib/cacheService.ts:27 | `Map.set` overwrites its key's entry and leaves every other key's entry unchanged |
| CacheService.PutDistinct | src/lib/cacheService.ts:27 | `Map.set` keeps keys distinct |
| CacheService.Delete | src/lib/cacheService.ts:36 | `Map.delete`, stated by DeleteSpec and DeleteDistinct |
| CacheService.DeleteSpec | src/lib/cacheService.ts:36 | `Map.delete` removes exactly the slots of its key and leaves every other key's entry unchanged |
| CacheService.DeleteConcat | src/lib/cacheService.ts:86 | deleting from a concatenation deletes from both parts |
| CacheService.DeleteAbsent | src/lib/cacheService.ts:86 | deleting a key no slot carries changes nothing |
| CacheService.DeleteDistinct | src/lib/cacheService.ts:36 | `Map.delete` keeps keys distinct |
| CacheService.Census | src/lib/cacheService.ts:57-64 | valid and expired entries partition the map: their counts sum to its size |
| CacheService.Sweep | src/lib/cacheService.ts:80-94 | the map left by `cleanup`, stated by SweepMembers, SweepLookup, SweepCensus and SweepDistinct |
| CacheService.ValidData | src/lib/cacheService.ts:30-41 | what `get` returns, stated by SetThenGet and SweepInvisible |
| CacheService.SweepCensus | src/lib/cacheService.ts:80-94 | after cleanup nothing is expired, and the valid count and the valid video total are unchanged |
| CacheService.SweepMembers | src/lib/cacheService.ts:80-94 | cleanup keeps exactly the slots whose entries are still valid |
| CacheService.SweepDistinct | src/lib/cacheService.ts:80-94 | cleanup keeps keys distinct |
| CacheService.SweepLookup | src/lib/cacheService.ts:80-94 | after cleanup a key finds its entry exactly when that entry was valid, and nothing otherwise |
| CacheService.SweepInvisible | src/lib/cacheService.ts:30-94 | a cleanup at `now` changes nothing any `get` at or after `now` returns |
| CacheService.SetThenGet | src/lib/cacheService.ts:21-41 | `get` right after `set` at the same instant returns the stored data exactly when the effective ttl is not negative; so with an absent, zero or positive ttl it always does |
| CacheService.SweepNext | src/lib/cacheService.ts:84-89 | the swept prefix grows by the next slot exactly when that slot is valid |
| CacheService.KeyOnlyAt | src/lib/cacheService.ts:84-89 | with distinct keys no other slot carries the current slot's key |
| CacheService.CleanupStep | src/lib/cacheService.ts:84-89 | one iteration of the cleanup loop, deleting the current key when expired, advances the swept prefix by one slot |
| CacheService.DeleteCurrent | src/lib/cacheService.ts:86 | deleting the current key while iterating removes exactly the current slot |
| CacheService.Cache.constructor | src/lib/cacheService.ts:10-19 | a new cache is empty |
| CacheService.Cache.Set | src/lib/cacheService.ts:21-28 | stores `{data, now, ttl \|\| 900000}` under the key, overwriting in place, and keeps keys distinct |
| CacheService.Cache.Get | src/lib/cacheService.ts:30-41 | returns the data exactly when an entry exists and `now - timestamp <= ttl`; deletes exactly that key when its entry is expired and otherwise changes nothing |
| CacheService.Cache.Has | src/lib/cacheService.ts:43-45 | true exactly when `get` returns data, with `get`'s eviction |
| CacheService.Cache.Clear | src/lib/cacheService.ts:47-49 | the map is empty afterwards |
| CacheService.Cache.GetCacheInfo | src/lib/cacheService.ts:51-77 | reports size = totalEntries = validEntries + expiredEntries, the stored keys in order, the valid and expired counts, the video total over valid entries only, and the default ttl; it changes nothing |
| CacheService.Cache.Cleanup | src/lib/cacheService.ts:80-94 | removes exactly the expired entries, keeps the valid ones in order, and keeps keys distinct |

## Left out

- Network and RSS parsing: `fetch`, `response.text()` and `parser.parseString` (src/lib/rssService.ts:80-88) are the function parameter `fetch`, applied to the feed URL. It is a function, so two identical URLs in one run get the same outcome.
- File and YAML loading (src/lib/rssService.ts:48-62) are the input `Config`. Feed-list entries that are not strings are left out: `trim` on them would throw and skip that channel.
- The engine's date-string parser `new Date(s)` is the parameter `parse`. Timestamps are integers, with no floating point.
- Dates.ParseDate: the source reads the clock separately for each fallback. The model uses one instant `now` per run.
- Thumbnails.LinkStep: the source also builds hq, mq and sd thumbnail URLs (src/lib/rssService.ts:149-154) but never uses them, so the model builds only `maxresdefault`.
- Thumbnail metadata: only the shapes the code distinguishes are modelled: absent, an array, or a single element carrying or lacking the `$` attribute object. Other shapes are left out, such as a string where an element is expected.
- Console logging throughout, and `rssService`/`cacheService` as singleton instances.
- The cache's `setInterval` sweep timer, its `clearInterval` and `destroy` (src/lib/cacheService.ts:14-19, 97-102). `Cleanup` is an ordinary method.
- CacheService.EffectiveTtl: a `NaN` ttl, also falsy in JavaScript, cannot occur with integer ttls.
- `src/lib/feedService.ts` (a browser-side HTTP wrapper), and the thin `refresh` and `cache` route handlers, which only compose the operations modelled here.
- Partial-error reporting and a cache-first read path: the code has neither. `GET /api/feeds` never touches `cacheService`, the refresh handler only calls `set`, and the cache handler only calls `getCacheInfo` and `clear`.
- Concurrency: the channel loop awaits each fetch in turn, so the model is sequential.
