/** A feed card's derived text: how long ago the article was written, and the summary preview. */
module NewsCard {
  import opened Wrappers
  import opened Text
  import JsMath

  const Second := 1000
  const Minute := 60 * Second
  const Hour := 60 * Minute
  const Day := 24 * Hour

  /** `getTimeAgo` given `now - createdAt` in milliseconds; `None` when `createdAt` does not parse
      (the difference is then NaN, every comparison fails and the number prints as "NaN"). */
  function TimeAgo(elapsedMs: Option<int>): (text: string)
    ensures elapsedMs.None? ==> text == "NaNd ago"
    ensures elapsedMs.Some? ==> (text == "Just now" <==> elapsedMs.value < Minute)
  {
    match elapsedMs
    case None => "NaNd ago"
    case Some(ms) =>
      var seconds := ms / 1000;
      if seconds < 60 then "Just now"
      else if seconds < 3600 then Ago(seconds / 60, "m ago")
      else if seconds < 86400 then Ago(seconds / 3600, "h ago")
      else Ago(seconds / 86400, "d ago")
  }

  /** A count followed by its unit; it starts with a digit, unlike "Just now". */
  function Ago(n: nat, unit: string): (text: string)
    ensures |text| > 0 && IsDigit(text[0])
  {
    NatToString(n) + unit
  }

  /** Flooring to whole seconds and then to whole units is flooring to whole units at once. */
  lemma FloorTwice(ms: int, unit: nat)
    requires unit > 0
    ensures (ms / 1000) / unit == ms / (1000 * unit)
  {
    var s := ms / 1000;
    var q := s / unit;
    assert q * unit <= s < (q + 1) * unit;
    assert s * 1000 <= ms < (s + 1) * 1000;
    assert q * (1000 * unit) == (q * unit) * 1000;
    assert (q + 1) * (1000 * unit) == ((q + 1) * unit) * 1000;
    assert q * (1000 * unit) <= ms < (q + 1) * (1000 * unit);
    DivIs(ms, 1000 * unit, q);
  }

  lemma DivIs(x: int, d: int, q: int)
    requires d > 0 && q * d <= x < (q + 1) * d
    ensures x / d == q
  {
    JsMath.DivAtLeast(x, d, q);
    JsMath.DivAtMost(x, d, q);
  }

  /** Under a minute, a future date included, reads "Just now". */
  lemma TimeAgoJustNow(ms: int)
    requires ms < Minute
    ensures TimeAgo(Some(ms)) == "Just now"
  {
  }

  /** From one minute to under an hour: the whole minutes elapsed, 1 to 59. */
  lemma TimeAgoMinutes(ms: int)
    requires Minute <= ms < Hour
    ensures TimeAgo(Some(ms)) == Ago(ms / Minute, "m ago")
    ensures 1 <= ms / Minute <= 59
  {
    FloorTwice(ms, 60);
    DivIs(ms, Minute, ms / Minute);
  }

  /** From one hour to under a day: the whole hours elapsed, 1 to 23. */
  lemma TimeAgoHours(ms: int)
    requires Hour <= ms < Day
    ensures TimeAgo(Some(ms)) == Ago(ms / Hour, "h ago")
    ensures 1 <= ms / Hour <= 23
  {
    FloorTwice(ms, 3600);
  }

  /** From one day on: the whole days elapsed, at least 1. */
  lemma TimeAgoDays(ms: int)
    requires Day <= ms
    ensures TimeAgo(Some(ms)) == Ago(ms / Day, "d ago")
    ensures ms / Day >= 1
  {
    FloorTwice(ms, 86400);
  }

  const PreviewLength := 200
  const Ellipsis := "..."

  /** `summaryMd?.substring(0, 200) + '...'`: a missing summary prints as "undefined". */
  function Preview(summaryMd: Option<string>): (preview: string)
    ensures summaryMd.None? ==> preview == "undefined..."
    ensures summaryMd.Some? ==>
      (var n := if |summaryMd.value| < PreviewLength then |summaryMd.value| else PreviewLength;
       |preview| == n + 3 && preview == summaryMd.value[..n] + Ellipsis)
  {
    match summaryMd
    case None => "undefined" + Ellipsis
    case Some(s) => Substring(s, 0, PreviewLength) + Ellipsis
  }

  /** A summary of at most 200 characters is shown whole; a longer one is cut, and two summaries
      that agree on their first 200 characters share a preview. */
  lemma PreviewCuts(s: string, t: string)
    ensures |s| <= PreviewLength ==> Preview(Some(s)) == s + Ellipsis
    ensures |s| >= PreviewLength && |t| >= PreviewLength && s[..PreviewLength] == t[..PreviewLength]
            ==> Preview(Some(s)) == Preview(Some(t))
  {
    assert s[..|s|] == s;
  }
}
