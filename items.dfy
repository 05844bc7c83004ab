/**
 * Record construction: the callback of `feed.items.map`, which turns one
 * raw item into a `Video` with `||` defaults, and the map over a feed's
 * items, which throws as soon as one callback throws.
 */
module Items {
  import opened Types
  import opened JsString
  import opened Dates
  import opened Thumbnails

  /**
   * One raw item as a record labelled with the channel name `channelName`. It throws
   * exactly when the thumbnail lookup throws; otherwise every field takes
   * its documented default.
   */
  function NormalizeItem(item: RawItem, channelName: string, parse: string -> Option<int>, now: int): (r: Result<Video>)
    ensures r.Err? <==> ResolveThumbnail(item).Err?
    ensures r.Ok? ==>
              && (item.title != "" ==> r.value.title == item.title)
              && (item.title == "" ==> r.value.title == "Untitled")
              && r.value.link == item.link
              && r.value.thumbnail == ResolveThumbnail(item).value && r.value.thumbnail != ""
              && r.value.channel == channelName
              && r.value.publishDate == ParseDate(parse, item.pubDate, now)
              && (item.contentSnippet != "" ==> r.value.description == item.contentSnippet)
              && (item.contentSnippet == "" ==> r.value.description == item.content)
  {
    match ResolveThumbnail(item)
    case Err(e) => Err(e)
    case Ok(thumbnail) =>
      Ok(Video(
        title := Or(item.title, "Untitled"),
        link := Or(item.link, ""),
        thumbnail := thumbnail,
        channel := channelName,
        publishDate := ParseDate(parse, item.pubDate, now),
        description := Or(Or(item.contentSnippet, item.content), "")))
  }

  /** Runs a sequence of computations in order: all values, or the first exception. */
  function AllOk<T>(rs: seq<Result<T>>): (r: Result<seq<T>>)
    ensures r.Ok? <==> forall i :: 0 <= i < |rs| ==> rs[i].Ok?
    ensures r.Ok? ==> |r.value| == |rs| && forall i :: 0 <= i < |rs| ==> r.value[i] == rs[i].value
  {
    if rs == [] then Ok([])
    else if rs[0].Err? then Err(rs[0].message)
    else
      match AllOk(rs[1..])
      case Err(e) =>
        assert exists i :: 1 <= i < |rs| && rs[i].Err? by {
          var j :| 0 <= j < |rs[1..]| && rs[1..][j].Err?;
          assert rs[1..][j] == rs[j + 1];
        }
        Err(e)
      case Ok(vs) =>
        assert forall i :: 1 <= i < |rs| ==> rs[i] == rs[1..][i - 1];
        Ok([rs[0].value] + vs)
  }

  /**
   * `items.map(callback)`: all records, in item order, or the first
   * exception; every record carries the channel name.
   */
  function NormalizeAll(items: seq<RawItem>, channelName: string, parse: string -> Option<int>, now: int): (r: Result<seq<Video>>)
    ensures r.Ok? <==> forall i :: 0 <= i < |items| ==> NormalizeItem(items[i], channelName, parse, now).Ok?
    ensures r.Ok? ==> |r.value| == |items|
    ensures r.Ok? ==> forall i :: 0 <= i < |items| ==> r.value[i] == NormalizeItem(items[i], channelName, parse, now).value
    ensures r.Ok? ==> forall i :: 0 <= i < |items| ==> r.value[i].channel == channelName
  {
    var rs := seq(|items|, i requires 0 <= i < |items| => NormalizeItem(items[i], channelName, parse, now));
    assert forall i :: 0 <= i < |items| ==> rs[i] == NormalizeItem(items[i], channelName, parse, now);
    AllOk(rs)
  }
}
