/**
 * Shared data model: the canonical video record, the loosely typed items the
 * feed parser hands back, and the per-channel outcome of fetching a feed.
 *
 * Optional text fields of raw items are plain strings in which "" stands for
 * an absent (undefined) field: the feed code only ever tests such fields for
 * JavaScript truthiness, for which absent and empty behave alike.
 */
module Types {

  datatype Option<+T> = None | Some(value: T)

  /** A computation that either completes with a value or throws. */
  datatype Result<+T> = Ok(value: T) | Err(message: string)

  /** The canonical record (`Video` in the type definitions); dates are milliseconds since the epoch. */
  datatype Video = Video(
    title: string,
    link: string,
    thumbnail: string,
    channel: string,
    publishDate: int,
    description: string)

  /**
   * One thumbnail element as the XML parser renders it: `$` holds the
   * element's attributes (`hasAttrs` says whether `$` is present at all) and
   * `url` is its url attribute ("" when missing).
   */
  datatype Thumb = Thumb(hasAttrs: bool, url: string)

  /** What sits under a `media:thumbnail` key: nothing, an array of elements, or a lone element. */
  datatype Thumbs = NoThumbs | ThumbList(elems: seq<Thumb>) | ThumbObject(elem: Thumb)

  /** A raw feed item; `groupThumbs` is `media:group` / `media:thumbnail`, `thumbs` is `media:thumbnail`. */
  datatype RawItem = RawItem(
    title: string,
    link: string,
    pubDate: string,
    content: string,
    contentSnippet: string,
    groupThumbs: Thumbs,
    thumbs: Thumbs)

  /** A parsed feed; `items` is None when the parser produced no item list. */
  datatype RawFeed = RawFeed(title: string, items: Option<seq<RawItem>>)

  /**
   * The outcome of fetching and parsing one feed URL: a response whose status
   * is not ok, an exception raised by the transport or the parser, or a feed.
   */
  datatype FetchOutcome = NotOk(status: int) | Failed(reason: string) | Parsed(feed: RawFeed)

  /** How the subscriptions file came out of loading. */
  datatype Config =
    | FileMissing                  // the file does not exist
    | Unreadable(reason: string)   // reading or YAML-loading it threw
    | NoFeedList                   // loaded, but no `feeds` array
    | FeedList(ids: seq<string>)   // the configured channel ids, in order
}
