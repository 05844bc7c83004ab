/**
 * Video-id extraction from an item link. Each of the four regular
 * expressions the feed code tries has the shape `prefix([^stop]+)`, where
 * the prefix is a fixed run of character classes; `String.prototype.match`
 * without the g flag returns the leftmost match, and the greedy group then
 * takes the longest run of characters outside `stop`. This module is a
 * hand-written scanner with exactly those semantics.
 */
module VideoId {
  import opened Types

  /** A quantifier-free regular-expression prefix: position k takes a character of p[k]. */
  type Pattern = seq<set<char>>

  /** The pattern that matches exactly the characters of s. */
  function Literal(s: string): (p: Pattern)
    ensures |p| == |s| && forall k :: 0 <= k < |s| ==> p[k] == {s[k]}
  {
    seq(|s|, k requires 0 <= k < |s| => {s[k]})
  }

  /** `[?&]v=([^&]+)` */
  const QueryV: Pattern := [{'?', '&'}, {'v'}, {'='}]
  /** `\/shorts\/([^/?&]+)` */
  const Shorts: Pattern := Literal("/shorts/")
  /** `\/embed\/([^/?&]+)` */
  const Embed: Pattern := Literal("/embed/")
  /** `\/watch\?v=([^&]+)` */
  const WatchV: Pattern := Literal("/watch?v=")

  const AmpStop: set<char> := {'&'}
  const PathStop: set<char> := {'/', '?', '&'}

  /** `pat([^stop]+)` matches at index i of s: the prefix fits and at least one captured character follows. */
  predicate MatchesAt(s: string, pat: Pattern, stop: set<char>, i: nat)
  {
    i + |pat| < |s| && (forall k :: 0 <= k < |pat| ==> s[i + k] in pat[k]) && s[i + |pat|] !in stop
  }

  /** The length of the longest run of characters outside `stop` starting at index j. */
  function RunLength(s: string, stop: set<char>, j: nat): (n: nat)
    requires j <= |s|
    ensures j + n <= |s|
    ensures forall k :: j <= k < j + n ==> s[k] !in stop
    ensures j + n == |s| || s[j + n] in stop
    decreases |s| - j
  {
    if j < |s| && s[j] !in stop then 1 + RunLength(s, stop, j + 1) else 0
  }

  /** The leftmost index at or after `from` where the pattern matches. */
  function Find(s: string, pat: Pattern, stop: set<char>, from: nat): (r: Option<nat>)
    ensures r.Some? ==> from <= r.value && MatchesAt(s, pat, stop, r.value)
    ensures r.Some? ==> forall k: nat :: from <= k < r.value ==> !MatchesAt(s, pat, stop, k)
    ensures r.None? ==> forall k: nat :: from <= k ==> !MatchesAt(s, pat, stop, k)
    decreases |s| - from
  {
    if from + |pat| >= |s| then None
    else if MatchesAt(s, pat, stop, from) then Some(from)
    else Find(s, pat, stop, from + 1)
  }

  /** The group captured at a match starting at index i is exactly id. */
  predicate CapturesAt(s: string, pat: Pattern, stop: set<char>, i: nat, id: string)
  {
    MatchesAt(s, pat, stop, i)
    && i + |pat| + |id| <= |s|
    && id == s[i + |pat|..i + |pat| + |id|]
    && (forall c :: c in id ==> c !in stop)
    && (i + |pat| + |id| == |s| || s[i + |pat| + |id|] in stop)
  }

  /** `s.match(/pat([^stop]+)/)?.[1]`: the group of the leftmost match, if any. */
  function Capture(s: string, pat: Pattern, stop: set<char>): (r: Option<string>)
    ensures r.None? <==> forall i: nat :: !MatchesAt(s, pat, stop, i)
    ensures r.Some? ==> |r.value| > 0 && forall c :: c in r.value ==> c !in stop
    ensures r.Some? ==> exists i: nat :: CapturesAt(s, pat, stop, i, r.value)
                                        && forall k: nat :: k < i ==> !MatchesAt(s, pat, stop, k)
  {
    match Find(s, pat, stop, 0)
    case None => None
    case Some(i) =>
      var j := i + |pat|;
      var id := s[j..j + RunLength(s, stop, j)];
      assert CapturesAt(s, pat, stop, i, id);
      Some(id)
  }

  /**
   * The video id of a link: the four patterns are tried in order
   * `[?&]v=`, `/shorts/`, `/embed/`, `/watch?v=` and the first that
   * matches supplies the id.
   */
  function ExtractVideoId(link: string): (r: Option<string>)
    ensures r.Some? ==> |r.value| > 0 && '&' !in r.value
    // An id taken from one of the path forms holds no '/' and no '?' either.
    ensures r.Some? && Capture(link, QueryV, AmpStop).None? ==> '/' !in r.value && '?' !in r.value
    ensures r.None? <==>
              && (forall i: nat :: !MatchesAt(link, QueryV, AmpStop, i))
              && (forall i: nat :: !MatchesAt(link, Shorts, PathStop, i))
              && (forall i: nat :: !MatchesAt(link, Embed, PathStop, i))
              && (forall i: nat :: !MatchesAt(link, WatchV, AmpStop, i))
  {
    var query := Capture(link, QueryV, AmpStop);
    if query.Some? then query
    else
      var shorts := Capture(link, Shorts, PathStop);
      if shorts.Some? then shorts
      else
        var embed := Capture(link, Embed, PathStop);
        if embed.Some? then embed
        else
          WatchUnreachable(link);
          Capture(link, WatchV, AmpStop)
  }

  /** Wherever `/watch?v=` matches, `[?&]v=` matches six characters later. */
  lemma WatchMatchIsQueryMatch(s: string, i: nat)
    requires MatchesAt(s, WatchV, AmpStop, i)
    ensures MatchesAt(s, QueryV, AmpStop, i + 6)
  {
    assert s[i + 6] in WatchV[6] && WatchV[6] == {'?'};
    assert s[i + 7] in WatchV[7] && WatchV[7] == {'v'};
    assert s[i + 8] in WatchV[8] && WatchV[8] == {'='};
  }

  /** The fourth pattern can never succeed where the first one failed. */
  lemma WatchUnreachable(link: string)
    ensures Capture(link, WatchV, AmpStop).Some? ==> Capture(link, QueryV, AmpStop).Some?
  {
    if Capture(link, WatchV, AmpStop).Some? {
      var i: nat :| MatchesAt(link, WatchV, AmpStop, i);
      WatchMatchIsQueryMatch(link, i);
    }
  }

  /** So the id comes from the first three patterns alone. */
  lemma ThreePatternsSuffice(link: string)
    ensures ExtractVideoId(link) ==
              if Capture(link, QueryV, AmpStop).Some? then Capture(link, QueryV, AmpStop)
              else if Capture(link, Shorts, PathStop).Some? then Capture(link, Shorts, PathStop)
              else Capture(link, Embed, PathStop)
  {
    WatchUnreachable(link);
  }

  /** If the pattern fails everywhere in [from, j) and matches at j, the scan from `from` stops at j. */
  lemma FindStopsAt(s: string, pat: Pattern, stop: set<char>, from: nat, j: nat)
    requires from <= j && MatchesAt(s, pat, stop, j)
    requires forall k: nat :: from <= k < j ==> !MatchesAt(s, pat, stop, k)
    ensures Find(s, pat, stop, from) == Some(j)
  {
  }

  /** RunLength is the length of any maximal run. */
  lemma RunLengthExact(s: string, stop: set<char>, j: nat, e: nat)
    requires j <= e <= |s|
    requires forall k :: j <= k < e ==> s[k] !in stop
    requires e == |s| || s[e] in stop
    ensures RunLength(s, stop, j) == e - j
  {
  }

  /** No `[?&]` occurs before index 25 of the sample watch link. */
  lemma SampleNoEarlierQuery(s: string)
    requires s == "https://youtube.com/watch?v=ABC123"
    ensures forall k: nat :: k < 25 ==> !MatchesAt(s, QueryV, AmpStop, k)
  {
    assert s[..25] == "https://youtube.com/watch";
    assert '?' !in s[..25] && '&' !in s[..25];
    forall k: nat | k < 25 ensures !MatchesAt(s, QueryV, AmpStop, k) {
      assert s[k] == s[..25][k] && s[k] in s[..25];
      assert s[k + 0] !in QueryV[0];
    }
  }

  /** The sample watch link captures ABC123 with the first pattern. */
  lemma SampleQueryCapture(s: string)
    requires s == "https://youtube.com/watch?v=ABC123"
    ensures Capture(s, QueryV, AmpStop) == Some("ABC123")
  {
    SampleNoEarlierQuery(s);
    assert MatchesAt(s, QueryV, AmpStop, 25);
    FindStopsAt(s, QueryV, AmpStop, 0, 25);
    assert forall k :: 28 <= k < 34 ==> s[k] !in AmpStop;
    RunLengthExact(s, AmpStop, 28, 34);
    assert s[28..34] == "ABC123";
  }

  /** The id of a plain watch link. */
  lemma WatchLinkId(link: string)
    requires link == "https://youtube.com/watch?v=ABC123"
    ensures ExtractVideoId(link) == Some("ABC123")
  {
    SampleQueryCapture(link);
  }
}
