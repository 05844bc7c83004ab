/**
 * Thumbnail resolution for one raw item: a first-match-wins chain over the
 * `media:group` thumbnail, the `media:thumbnail` element, a URL synthesised
 * from the link's video id, and a fixed placeholder. Reading `.$.url` from
 * an undefined value throws a TypeError, and so does this model.
 */
module Thumbnails {
  import opened Types
  import opened VideoId

  const Placeholder: string := "https://via.placeholder.com/320x180/cccccc/666666?text=No+Thumbnail"
  const TypeError: string := "TypeError"

  /** The highest-quality image URL for a video id (the first of the four the source builds, and the only one used). */
  function MaxResUrl(id: string): string
  {
    "https://img.youtube.com/vi/" + id + "/maxresdefault.jpg"
  }

  /** `element.$.url`: throws when the element has no `$`. */
  function ReadUrl(t: Thumb): Result<string>
  {
    if t.hasAttrs then Ok(t.url) else Err(TypeError)
  }

  /** Step 1: the first `media:group` thumbnail, in array or object form. */
  function GroupStep(g: Thumbs): Result<string>
  {
    match g
    case NoThumbs => Ok("")
    // An empty array is still an object, so `.$.url` is then read from undefined.
    case ThumbList(ts) => if |ts| > 0 then ReadUrl(ts[0]) else Err(TypeError)
    case ThumbObject(t) => ReadUrl(t)
  }

  /** Step 2: `media:thumbnail[0]`, tried only while no thumbnail is known. */
  function AltStep(m: Thumbs, current: string): Result<string>
  {
    if current != "" then Ok(current)
    else
      match m
      case ThumbList(ts) => if |ts| > 0 then ReadUrl(ts[0]) else Ok(current)
      // Absent, or a lone element whose `[0]` is undefined.
      case _ => Ok(current)
  }

  /** Step 3: a URL built from the link's video id, tried only while no thumbnail is known. */
  function LinkStep(link: string, current: string): string
  {
    if current == "" && link != "" then
      match ExtractVideoId(link)
      case Some(id) => MaxResUrl(id)
      case None => current
    else current
  }

  /** What a step offers when it completes: its URL, or "" when it throws. */
  function Offer(r: Result<string>): string
  {
    if r.Ok? then r.value else ""
  }

  /** What the link offers: the synthesised URL when it yields a video id. */
  function LinkOffer(link: string): string
  {
    match ExtractVideoId(link)
    case Some(id) => MaxResUrl(id)
    case None => ""
  }

  /** The first non-empty candidate, or "" when there is none. */
  function FirstNonEmpty(cands: seq<string>): (r: string)
    ensures r == "" <==> forall i :: 0 <= i < |cands| ==> cands[i] == ""
    ensures r != "" ==> exists i :: 0 <= i < |cands| && cands[i] == r && forall j :: 0 <= j < i ==> cands[j] == ""
  {
    if cands == [] then ""
    else if cands[0] != "" then cands[0]
    else
      var r := FirstNonEmpty(cands[1..]);
      assert forall i :: 1 <= i < |cands| ==> cands[i] == cands[1..][i - 1];
      r
  }

  lemma FirstOfFour(a: string, b: string, c: string, d: string)
    ensures FirstNonEmpty([a, b, c, d]) == if a != "" then a else if b != "" then b else if c != "" then c else d
  {
    assert [a, b, c, d][1..] == [b, c, d];
    assert [b, c, d][1..] == [c, d];
    assert [c, d][1..] == [d];
    assert [d][1..] == [];
    assert FirstNonEmpty([d]) == d;
    assert FirstNonEmpty([c, d]) == if c != "" then c else d;
    assert FirstNonEmpty([b, c, d]) == if b != "" then b else FirstNonEmpty([c, d]);
  }

  lemma EmptyLinkOffersNothing(link: string)
    ensures link == "" ==> LinkOffer(link) == ""
  {
    if link == "" {
      assert !MatchesAt(link, QueryV, AmpStop, 0);
    }
  }

  /**
   * The thumbnail of an item. It throws exactly when step 1 throws, or when
   * step 1 offers nothing and step 2 throws; otherwise it is the first
   * non-empty offer in the order media:group, media:thumbnail, link, and
   * the placeholder, so it is never empty.
   */
  function ResolveThumbnail(item: RawItem): (r: Result<string>)
    ensures r.Ok? ==> r.value != ""
    ensures r.Err? <==>
              GroupStep(item.groupThumbs).Err?
              || (GroupStep(item.groupThumbs) == Ok("") && AltStep(item.thumbs, "").Err?)
    ensures r.Ok? ==>
              r.value == FirstNonEmpty([Offer(GroupStep(item.groupThumbs)), Offer(AltStep(item.thumbs, "")),
                                        LinkOffer(item.link), Placeholder])
  {
    match GroupStep(item.groupThumbs)
    case Err(e) => Err(e)
    case Ok(t1) =>
      match AltStep(item.thumbs, t1)
      case Err(e) => Err(e)
      case Ok(t2) =>
        var t3 := LinkStep(item.link, t2);
        EmptyLinkOffersNothing(item.link);
        FirstOfFour(Offer(GroupStep(item.groupThumbs)), Offer(AltStep(item.thumbs, "")), LinkOffer(item.link), Placeholder);
        Ok(if t3 == "" then Placeholder else t3)
  }

  /** A non-empty media:group URL is the thumbnail, whatever the item's other thumbnail fields and link hold. */
  lemma StructuredThumbnailWins(item: RawItem, url: string)
    requires url != "" && GroupStep(item.groupThumbs) == Ok(url)
    ensures ResolveThumbnail(item) == Ok(url)
  {
  }

  /** The image URL of the sample id. */
  lemma SampleMaxResUrl()
    ensures MaxResUrl("ABC123") == "https://img.youtube.com/vi/ABC123/maxresdefault.jpg"
  {
  }

  /** The worked example: a watch link with no structured thumbnail gets the maxresdefault image. */
  lemma WatchLinkThumbnail(item: RawItem)
    requires item.link == "https://youtube.com/watch?v=ABC123"
    requires item.groupThumbs == NoThumbs && item.thumbs == NoThumbs
    ensures ResolveThumbnail(item) == Ok("https://img.youtube.com/vi/ABC123/maxresdefault.jpg")
  {
    WatchLinkId(item.link);
    SampleMaxResUrl();
    var url := MaxResUrl("ABC123");
    assert GroupStep(item.groupThumbs) == Ok("");
    assert AltStep(item.thumbs, "") == Ok("");
    assert LinkOffer(item.link) == url;
    FirstOfFour("", "", url, Placeholder);
  }
}
