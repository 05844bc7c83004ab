/**
 * The publish-date normaliser `parseDate`. The engine's own date-string
 * parser (`new Date(s)` followed by the NaN test) is the parameter `parse`:
 * it yields Some(milliseconds) for a string it accepts and None for an
 * Invalid Date. The current time is the parameter `now`.
 */
module Dates {
  import opened Types
  import opened JsString

  /** The regular expression `\s+GMT$` matches starting at index i of s. */
  predicate GmtMatchAt(s: string, i: nat)
  {
    i + 3 < |s| && s[|s| - 3..] == "GMT" && forall k :: i <= k < |s| - 3 ==> IsSpace(s[k])
  }

  /** `s.replace(/\s+GMT$/, '')`. */
  function StripTrailingGmt(s: string): (r: string)
    // Without a match the string is returned unchanged.
    ensures (forall i: nat :: !GmtMatchAt(s, i)) ==> r == s
    // Otherwise the leftmost match, which runs to the end of s, is removed.
    ensures (exists i: nat :: GmtMatchAt(s, i)) ==>
              |r| <= |s| && r == s[..|r|] && GmtMatchAt(s, |r|) && forall i: nat :: i < |r| ==> !GmtMatchAt(s, i)
  {
    if |s| >= 4 && s[|s| - 3..] == "GMT" && IsSpace(s[|s| - 4]) then
      var r := TrimEnd(s[..|s| - 3]);
      assert GmtMatchAt(s, |r|);
      assert forall i: nat :: i < |r| ==> !GmtMatchAt(s, i) by {
        forall i: nat | i < |r| ensures !GmtMatchAt(s, i) {
          assert r[|r| - 1] == s[|r| - 1] && !IsSpace(s[|r| - 1]);
        }
      }
      r
    else
      assert forall i: nat :: !GmtMatchAt(s, i) by {
        forall i: nat ensures !GmtMatchAt(s, i) {
          if i + 3 < |s| && s[|s| - 3..] == "GMT" {
            assert !IsSpace(s[|s| - 4]);
          }
        }
      }
      s
  }

  /**
   * `parseDate`: an absent or empty string gives `now`; otherwise the direct
   * parse if it is valid, else the parse of the string with its trailing
   * `<whitespace>GMT` removed if that is valid, else `now`. It never throws.
   */
  function ParseDate(parse: string -> Option<int>, dateString: string, now: int): (r: int)
    // The result is always one of the three candidates.
    ensures r == now || parse(dateString) == Some(r) || parse(StripTrailingGmt(dateString)) == Some(r)
    ensures dateString == "" ==> r == now
    // A valid direct parse always wins.
    ensures dateString != "" && parse(dateString).Some? ==> r == parse(dateString).value
    // The retry is used exactly when the direct parse failed.
    ensures dateString != "" && parse(dateString).None? && parse(StripTrailingGmt(dateString)).Some? ==>
              r == parse(StripTrailingGmt(dateString)).value
    ensures dateString != "" && parse(dateString).None? && parse(StripTrailingGmt(dateString)).None? ==>
              r == now
  {
    if dateString == "" then now
    else
      match parse(dateString)
      case Some(t) => t
      case None =>
        match parse(StripTrailingGmt(dateString))
        case Some(t) => t
        case None => now
  }

  /** For a string not ending in `<whitespace>GMT` the retry cannot help: a failed direct parse gives `now`. */
  lemma NoGmtSuffixFallsBackToNow(parse: string -> Option<int>, dateString: string, now: int)
    requires dateString != "" && parse(dateString).None?
    requires !(|dateString| >= 4 && dateString[|dateString| - 3..] == "GMT" && IsSpace(dateString[|dateString| - 4]))
    ensures ParseDate(parse, dateString, now) == now
  {
    forall i: nat ensures !GmtMatchAt(dateString, i) {
      if i + 3 < |dateString| && dateString[|dateString| - 3..] == "GMT" {
        assert !IsSpace(dateString[|dateString| - 4]);
      }
    }
  }

  /** The whole whitespace run before the final "GMT" goes, and nothing before it. */
  lemma StripTrailingGmtExample()
    ensures StripTrailingGmt("Mon, 01 Jan 2024 00:00:00  GMT") == "Mon, 01 Jan 2024 00:00:00"
  {
    var s := "Mon, 01 Jan 2024 00:00:00  GMT";
    assert GmtMatchAt(s, 25);
    var r := StripTrailingGmt(s);
    assert !IsSpace(s[24]);
    assert |r| == 25;
  }
}
