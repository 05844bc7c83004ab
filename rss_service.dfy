/**
 * `RSSService.fetchFeeds`: for each configured channel id, build the feed
 * URL from the trimmed id, fetch and parse it, normalise its items and
 * append them; a channel whose response is not ok, or whose processing
 * throws, is skipped. The accumulated videos are then sorted newest first.
 *
 * Fetching and parsing a URL is the parameter `fetch`, the engine's date
 * parser is `parse`, and the clock is `now`.
 */
module RssService {
  import opened Types
  import opened JsString
  import opened Items
  import NewestFirst

  const FeedUrlPrefix: string := "https://www.youtube.com/feeds/videos.xml?channel_id="

  /** The feed URL of a configured channel id: the fixed prefix followed by the trimmed id. */
  function FeedUrl(channelId: string): string
  {
    FeedUrlPrefix + Trim(channelId)
  }

  /** The name a channel's videos carry: the feed's own title, else the trimmed id. */
  function ChannelName(feed: RawFeed, channelId: string): string
  {
    Or(feed.title, Trim(channelId))
  }

  /** The items of a fetched feed, when the channel produced a feed with an item list. */
  predicate HasItems(outcome: FetchOutcome)
  {
    outcome.Parsed? && outcome.feed.items.Some?
  }

  /** What one channel contributes to the aggregate (see NoItemsNoVideos and ItemsContribution). */
  function ChannelVideos(channelId: string, fetch: string -> FetchOutcome, parse: string -> Option<int>, now: int): seq<Video>
  {
    var cleanChannelId := Trim(channelId);
    match fetch(FeedUrlPrefix + cleanChannelId)
    case NotOk(_) => []
    case Failed(_) => []
    case Parsed(feed) =>
      if feed.items.None? then []
      else
        match NormalizeAll(feed.items.value, Or(feed.title, cleanChannelId), parse, now)
        case Err(_) => []
        case Ok(channelVideos) => channelVideos
  }

  /** A channel whose response is not ok, whose fetch or parse throws, or whose feed has no item list contributes nothing. */
  lemma NoItemsNoVideos(channelId: string, fetch: string -> FetchOutcome, parse: string -> Option<int>, now: int)
    requires !HasItems(fetch(FeedUrl(channelId)))
    ensures ChannelVideos(channelId, fetch, parse, now) == []
    ensures Contribution(fetch, parse, now)(channelId) == []
  {
    assert fetch(FeedUrl(channelId)) == fetch(FeedUrlPrefix + Trim(channelId));
    assert Contribution(fetch, parse, now)(channelId) == ChannelVideos(channelId, fetch, parse, now);
  }

  /**
   * A channel whose feed has an item list contributes exactly one record per
   * item, in item order, each named after the channel, unless normalising
   * some item throws, in which case it contributes nothing.
   */
  lemma ItemsContribution(channelId: string, fetch: string -> FetchOutcome, parse: string -> Option<int>, now: int)
    requires HasItems(fetch(FeedUrl(channelId)))
    ensures var vs := ChannelVideos(channelId, fetch, parse, now);
            var feed := fetch(FeedUrl(channelId)).feed;
            var items := feed.items.value;
            var name := ChannelName(feed, channelId);
            if forall i :: 0 <= i < |items| ==> NormalizeItem(items[i], name, parse, now).Ok? then
              |vs| == |items|
              && forall i :: 0 <= i < |items| ==>
                   vs[i] == NormalizeItem(items[i], name, parse, now).value && vs[i].channel == name
            else vs == []
  {
  }

  /** Each channel's contribution, as a function of the configured id. */
  function Contribution(fetch: string -> FetchOutcome, parse: string -> Option<int>, now: int): string -> seq<Video>
  {
    channelId => ChannelVideos(channelId, fetch, parse, now)
  }

  /** The videos accumulated by the channel loop over ids, channel after channel. */
  function Accumulate(ids: seq<string>, contribution: string -> seq<Video>): seq<Video>
  {
    if ids == [] then []
    else Accumulate(ids[..|ids| - 1], contribution) + contribution(ids[|ids| - 1])
  }

  /** The channel loop: pushes each channel's contribution onto the accumulator. */
  method CollectVideos(ids: seq<string>, fetch: string -> FetchOutcome, parse: string -> Option<int>, now: int)
    returns (allVideos: seq<Video>)
    ensures allVideos == Accumulate(ids, Contribution(fetch, parse, now))
  {
    allVideos := [];
    var i := 0;
    while i < |ids|
      invariant 0 <= i <= |ids|
      invariant allVideos == Accumulate(ids[..i], Contribution(fetch, parse, now))
    {
      var channelVideos := ChannelVideos(ids[i], fetch, parse, now);
      allVideos := allVideos + channelVideos;
      i := i + 1;
      assert ids[..i][..i - 1] == ids[..i - 1];
    }
    assert ids[..i] == ids;
  }

  /** The sorted aggregate the service returns for a list of channel ids. */
  function Aggregate(ids: seq<string>, fetch: string -> FetchOutcome, parse: string -> Option<int>, now: int): seq<Video>
  {
    NewestFirst.Sort(Accumulate(ids, Contribution(fetch, parse, now)))
  }

  /**
   * `fetchFeeds`: a missing subscriptions file and a configuration without a
   * feed list throw before any channel is fetched, and an exception from
   * reading or loading the file propagates; otherwise the result is the
   * stable newest-first ordering of everything the channels contributed.
   */
  method FetchFeeds(config: Config, fetch: string -> FetchOutcome, parse: string -> Option<int>, now: int)
    returns (r: Result<seq<Video>>)
    ensures config.FileMissing? ==> r == Err("Subscriptions file not found")
    ensures config.Unreadable? ==> r == Err(config.reason)
    ensures config.NoFeedList? ==> r == Err("Invalid subscriptions format")
    ensures config.FeedList? ==>
              && r.Ok?
              && r.value == Aggregate(config.ids, fetch, parse, now)
              && NewestFirst.Sorted(r.value)
              && multiset(r.value) == multiset(Accumulate(config.ids, Contribution(fetch, parse, now)))
              && |r.value| == |Accumulate(config.ids, Contribution(fetch, parse, now))|
  {
    match config
    case FileMissing =>
      r := Err("Subscriptions file not found");
    case Unreadable(reason) =>
      r := Err(reason);
    case NoFeedList =>
      r := Err("Invalid subscriptions format");
    case FeedList(ids) =>
      var allVideos := CollectVideos(ids, fetch, parse, now);
      var sorted := NewestFirst.Sort(allVideos);
      assert |multiset(sorted)| == |multiset(allVideos)|;
      r := Ok(sorted);
  }

  /** The loop over a concatenation is the concatenation of the loops. */
  lemma {:induction false} AccumulateAppend(a: seq<string>, b: seq<string>, contribution: string -> seq<Video>)
    ensures Accumulate(a + b, contribution) == Accumulate(a, contribution) + Accumulate(b, contribution)
    decreases |b|
  {
    if b == [] {
      assert a + b == a;
    } else {
      var b' := b[..|b| - 1];
      assert (a + b)[..|a + b| - 1] == a + b';
      assert (a + b)[|a + b| - 1] == b[|b| - 1];
      AccumulateAppend(a, b', contribution);
    }
  }

  /** Failure isolation: a channel that contributes nothing removes nothing but itself. */
  lemma SkippedChannel(a: seq<string>, channelId: string, b: seq<string>, contribution: string -> seq<Video>)
    requires contribution(channelId) == []
    ensures Accumulate(a + [channelId] + b, contribution) == Accumulate(a + b, contribution)
  {
    AccumulateAppend(a + [channelId], b, contribution);
    AccumulateAppend(a, [channelId], contribution);
    AccumulateAppend(a, b, contribution);
    assert [channelId][..0] == [];
  }

  /** Every accumulated video comes from some configured channel, and every channel's videos are accumulated. */
  lemma {:induction false} AccumulateMembers(ids: seq<string>, v: Video, contribution: string -> seq<Video>)
    ensures v in Accumulate(ids, contribution) <==> exists i :: 0 <= i < |ids| && v in contribution(ids[i])
    decreases |ids|
  {
    if ids != [] {
      var init := ids[..|ids| - 1];
      AccumulateMembers(init, v, contribution);
      assert forall i :: 0 <= i < |init| ==> init[i] == ids[i];
      if exists i :: 0 <= i < |ids| && v in contribution(ids[i]) {
        var i :| 0 <= i < |ids| && v in contribution(ids[i]);
        if i < |init| {
          assert v in contribution(init[i]);
        }
      }
    }
  }

  /** The number of accumulated videos is the sum of the channels' counts. */
  lemma {:induction false} AccumulateLength(a: seq<string>, channelId: string, contribution: string -> seq<Video>)
    ensures |Accumulate(a + [channelId], contribution)| == |Accumulate(a, contribution)| + |contribution(channelId)|
  {
    assert (a + [channelId])[..|a|] == a;
  }

  /**
   * The three-channel scenario: channels a and c contribute and b fails; the
   * result holds exactly the videos of a and c, newest first.
   */
  lemma MiddleChannelFails(a: string, b: string, c: string, contribution: string -> seq<Video>)
    requires contribution(b) == []
    ensures Accumulate([a, b, c], contribution) == contribution(a) + contribution(c)
    ensures multiset(NewestFirst.Sort(Accumulate([a, b, c], contribution)))
            == multiset(contribution(a)) + multiset(contribution(c))
  {
    SkippedChannel([a], b, [c], contribution);
    assert [a] + [b] + [c] == [a, b, c];
    AccumulateAppend([a], [c], contribution);
    assert [a][..0] == [] && [c][..0] == [];
  }
}
