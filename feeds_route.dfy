/**
 * The `GET /api/feeds` handler: the same channel loop and sort as
 * `RSSService.fetchFeeds`, but every outcome is a JSON body. A missing or
 * invalid subscriptions file returns an empty list with an error message
 * before any channel is fetched, and an exception raised while reading or
 * loading the file is caught by the handler's outer `catch`.
 */
module FeedsRoute {
  import opened Types
  import RssService
  import NewestFirst

  /** The JSON body `{ videos, error? }`. */
  datatype FeedResponse = FeedResponse(videos: seq<Video>, error: Option<string>)

  method Get(config: Config, fetch: string -> FetchOutcome, parse: string -> Option<int>, now: int)
    returns (resp: FeedResponse)
    ensures config.FileMissing? ==> resp == FeedResponse([], Some("Subscriptions file not found"))
    ensures config.Unreadable? ==> resp == FeedResponse([], Some("Failed to fetch feeds"))
    ensures config.NoFeedList? ==> resp == FeedResponse([], Some("Invalid subscriptions format"))
    ensures config.FeedList? ==>
              && resp.error.None?
              && resp.videos == RssService.Aggregate(config.ids, fetch, parse, now)
              && NewestFirst.Sorted(resp.videos)
              && multiset(resp.videos)
                 == multiset(RssService.Accumulate(config.ids, RssService.Contribution(fetch, parse, now)))
    // An error body never carries videos.
    ensures resp.error.Some? ==> resp.videos == []
  {
    match config
    case FileMissing =>
      resp := FeedResponse([], Some("Subscriptions file not found"));
    case Unreadable(_) =>
      resp := FeedResponse([], Some("Failed to fetch feeds"));
    case NoFeedList =>
      resp := FeedResponse([], Some("Invalid subscriptions format"));
    case FeedList(ids) =>
      var allVideos := RssService.CollectVideos(ids, fetch, parse, now);
      var sorted := NewestFirst.Sort(allVideos);
      resp := FeedResponse(sorted, None);
  }
}
