/** The front end's analysis client: normalising a backend analysis payload into a story with a
    flat claim list, and exporting a story's stance matrix as CSV. */
module AnalysisApi {
  import opened Wrappers
  import opened Seqs
  import opened Text

  // ---------------------------------------------------------------- backend payload

  /** One outlet's stance as the backend sends it; every field may be absent. */
  datatype RawStance = RawStance(
    domain: Option<string>,
    outlet: Option<string>,
    stance: Option<string>,
    quote: Option<string>,
    url: Option<string>,
    confidence: Option<real>)

  datatype Framing = Framing(hedges: seq<string>, modality: seq<string>, loadedTerms: seq<string>)

  datatype NumberMention = NumberMention(value: real, unit: string)

  datatype RawClaim = RawClaim(
    claimId: Option<string>,
    canonicalText: Option<string>,
    text: Option<string>,
    entities: Option<seq<string>>,
    numbers: Option<seq<NumberMention>>,
    framing: Option<Framing>,
    outlets: Option<seq<RawStance>>,
    stances: Option<seq<RawStance>>)

  /** A covered outlet, as listed in a story's `sources`. */
  datatype Source = Source(domain: string, region: string, leaning: string)

  datatype Meta = Meta(latency: int, articleCount: nat, timestamp: Option<string>)

  datatype RawResponse = RawResponse(
    analysisId: Option<string>,
    headline: Option<string>,
    entities: Option<seq<string>>,
    sources: Option<seq<Source>>,
    consensus: Option<seq<RawClaim>>,
    disputed: Option<seq<RawClaim>>,
    missing: Option<seq<RawClaim>>,
    meta: Option<Meta>)

  // ---------------------------------------------------------------- front-end story

  datatype Stance = Stance(outlet: string, stance: string, quote: string, url: string, confidence: real)

  datatype ClaimView = ClaimView(
    id: string,
    text: string,
    entities: seq<string>,
    numbers: seq<NumberMention>,
    framing: Framing,
    stances: seq<Stance>)

  /** A transformed claim with the bucket it came from (`{ ...transformClaim(c), category }`). */
  datatype Claim = Claim(view: ClaimView, category: string)

  datatype Story = Story(
    id: string,
    headline: string,
    entities: seq<string>,
    timestamp: string,
    sources: seq<Source>,
    claims: seq<Claim>,
    meta: Option<Meta>)

  const EmptyFraming := Framing([], [], [])

  /** One element of a claim's stance list with the source's defaults filled in. */
  function TransformStance(o: RawStance): (s: Stance)
    ensures s.outlet == OrElse(o.domain, OrElse(o.outlet, ""))
    ensures s.stance == OrElse(o.stance, "neutral")
    ensures s.quote == OrElse(o.quote, "") && s.url == OrElse(o.url, "")
    ensures s.confidence == o.confidence.GetOr(0.0)
  {
    Stance(OrElse(o.domain, OrElse(o.outlet, "")), OrElse(o.stance, "neutral"), OrElse(o.quote, ""),
           OrElse(o.url, ""), o.confidence.GetOr(0.0))
  }

  /** The stance list a claim carries: `outlets`, else `stances`, else none (an empty array is
      not falsy, so a present `outlets` wins even when it is empty). */
  function RawStances(c: RawClaim): seq<RawStance>
  {
    if c.outlets.Some? then c.outlets.value else c.stances.GetOr([])
  }

  /** `transformClaim`; `nowMs` stands for `Date.now()` in the fallback id. */
  function TransformClaim(c: RawClaim, nowMs: nat): (v: ClaimView)
    ensures v.text == OrElse(c.canonicalText, OrElse(c.text, ""))
    ensures c.framing.None? ==> v.framing == EmptyFraming
    ensures c.framing.Some? ==> v.framing == c.framing.value
    ensures |v.stances| == |RawStances(c)|
    ensures forall i :: 0 <= i < |v.stances| ==> v.stances[i] == TransformStance(RawStances(c)[i])
  {
    var raw := RawStances(c);
    ClaimView(
      OrElse(c.claimId, "claim-" + NatToString(nowMs)),
      OrElse(c.canonicalText, OrElse(c.text, "")),
      c.entities.GetOr([]),
      c.numbers.GetOr([]),
      c.framing.GetOr(EmptyFraming),
      seq(|raw|, i requires 0 <= i < |raw| => TransformStance(raw[i])))
  }

  /** Every claim of one bucket, transformed and tagged with the bucket's name. */
  function Tagged(bucket: seq<RawClaim>, category: string, nowMs: nat): (r: seq<Claim>)
    ensures |r| == |bucket|
    ensures forall i :: 0 <= i < |r| ==> r[i] == Claim(TransformClaim(bucket[i], nowMs), category)
  {
    seq(|bucket|, i requires 0 <= i < |bucket| => Claim(TransformClaim(bucket[i], nowMs), category))
  }

  /** `transformAnalysisResponse`: consensus claims, then disputed, then missing, with the
      defaults for absent fields; `nowMs` and `nowIso` stand for the clock. */
  function TransformAnalysisResponse(response: RawResponse, nowMs: nat, nowIso: string): (story: Story)
    ensures story.claims == Tagged(response.consensus.GetOr([]), "consensus", nowMs)
                          + Tagged(response.disputed.GetOr([]), "disputed", nowMs)
                          + Tagged(response.missing.GetOr([]), "missing", nowMs)
    ensures story.headline == OrElse(response.headline, "Analysis Result")
    ensures story.entities == response.entities.GetOr([])
    ensures story.sources == response.sources.GetOr([])
  {
    var consensus := response.consensus.GetOr([]);
    var disputed := response.disputed.GetOr([]);
    var missing := response.missing.GetOr([]);
    var timestamp := if response.meta.Some? then response.meta.value.timestamp else None;
    Story(
      OrElse(response.analysisId, "story-" + NatToString(nowMs)),
      OrElse(response.headline, "Analysis Result"),
      response.entities.GetOr([]),
      OrElse(timestamp, nowIso),
      response.sources.GetOr([]),
      Tagged(consensus, "consensus", nowMs) + Tagged(disputed, "disputed", nowMs) + Tagged(missing, "missing", nowMs),
      response.meta)
  }

  function CategoryIs(category: string): Claim -> bool
  {
    (c: Claim) => c.category == category
  }

  lemma CountAppend(a: seq<Claim>, b: seq<Claim>, p: Claim -> bool)
    ensures Count(a + b, p) == Count(a, p) + Count(b, p)
  {
    FilterAppend(a, b, p);
  }

  /** A tagged bucket holds |bucket| claims of its own category and none of any other. */
  lemma {:induction false} TaggedCount(bucket: seq<RawClaim>, category: string, other: string, nowMs: nat)
    ensures Count(Tagged(bucket, category, nowMs), CategoryIs(category)) == |bucket|
    ensures other != category ==> Count(Tagged(bucket, category, nowMs), CategoryIs(other)) == 0
  {
    if bucket != [] {
      var t := Tagged(bucket, category, nowMs);
      TaggedTail(bucket, category, nowMs);
      TaggedCount(bucket[1..], category, other, nowMs);
      assert t[0].category == category;
    }
  }

  lemma TaggedTail(bucket: seq<RawClaim>, category: string, nowMs: nat)
    requires bucket != []
    ensures Tagged(bucket, category, nowMs)[1..] == Tagged(bucket[1..], category, nowMs)
  {
    var a := Tagged(bucket, category, nowMs)[1..];
    var b := Tagged(bucket[1..], category, nowMs);
    forall i | 0 <= i < |a| ensures a[i] == b[i] {
      assert bucket[1..][i] == bucket[i + 1];
    }
  }

  lemma CountThree(c: seq<Claim>, d: seq<Claim>, m: seq<Claim>, p: Claim -> bool)
    ensures Count(c + d + m, p) == Count(c, p) + Count(d, p) + Count(m, p)
  {
    CountAppend(c + d, m, p);
    CountAppend(c, d, p);
  }

  lemma BucketCounts(bc: seq<RawClaim>, bd: seq<RawClaim>, bm: seq<RawClaim>, nowMs: nat)
    ensures var claims := Tagged(bc, "consensus", nowMs) + Tagged(bd, "disputed", nowMs) + Tagged(bm, "missing", nowMs);
      && Count(claims, CategoryIs("consensus")) == |bc|
      && Count(claims, CategoryIs("disputed")) == |bd|
      && Count(claims, CategoryIs("missing")) == |bm|
  {
    var c, d, m := Tagged(bc, "consensus", nowMs), Tagged(bd, "disputed", nowMs), Tagged(bm, "missing", nowMs);
    assert "consensus"[0] == 'c' && "disputed"[0] == 'd' && "missing"[0] == 'm';
    CountThree(c, d, m, CategoryIs("consensus"));
    CountThree(c, d, m, CategoryIs("disputed"));
    CountThree(c, d, m, CategoryIs("missing"));
    TaggedCount(bc, "consensus", "disputed", nowMs);
    TaggedCount(bc, "consensus", "missing", nowMs);
    TaggedCount(bd, "disputed", "consensus", nowMs);
    TaggedCount(bd, "disputed", "missing", nowMs);
    TaggedCount(bm, "missing", "consensus", nowMs);
    TaggedCount(bm, "missing", "disputed", nowMs);
  }

  /** The story holds as many claims of each category as the payload's bucket of that name. */
  lemma CategoryCounts(response: RawResponse, nowMs: nat, nowIso: string)
    ensures var story := TransformAnalysisResponse(response, nowMs, nowIso);
      && |story.claims| == |response.consensus.GetOr([])| + |response.disputed.GetOr([])| + |response.missing.GetOr([])|
      && Count(story.claims, CategoryIs("consensus")) == |response.consensus.GetOr([])|
      && Count(story.claims, CategoryIs("disputed")) == |response.disputed.GetOr([])|
      && Count(story.claims, CategoryIs("missing")) == |response.missing.GetOr([])|
  {
    BucketCounts(response.consensus.GetOr([]), response.disputed.GetOr([]), response.missing.GetOr([]), nowMs);
  }

  // ---------------------------------------------------------------- stance lookup

  /** `stances.find(s => s.outlet === outlet)`: the first stance recorded for the outlet. */
  function FindStance(stances: seq<Stance>, outlet: string): (r: Option<Stance>)
    ensures r.Some? ==> exists i :: 0 <= i < |stances| && stances[i] == r.value && r.value.outlet == outlet
                                  && forall j :: 0 <= j < i ==> stances[j].outlet != outlet
    ensures r.None? ==> forall i :: 0 <= i < |stances| ==> stances[i].outlet != outlet
  {
    if stances == [] then None
    else if stances[0].outlet == outlet then Some(stances[0])
    else
      var r := FindStance(stances[1..], outlet);
      assert r.Some? ==> exists i :: 1 <= i < |stances| && stances[i] == r.value && r.value.outlet == outlet
                                    && forall j :: 0 <= j < i ==> stances[j].outlet != outlet by {
        if r.Some? {
          var i :| 0 <= i < |stances[1..]| && stances[1..][i] == r.value && r.value.outlet == outlet
                   && forall j :: 0 <= j < i ==> stances[1..][j].outlet != outlet;
          assert stances[i + 1] == r.value;
          assert forall j :: 1 <= j < i + 1 ==> stances[j] == stances[1..][j - 1];
        }
      }
      r
  }

  // ---------------------------------------------------------------- CSV export

  /** Doubles every double quote (section 2, rule 7 of RFC 4180). */
  function EscapeQuotes(s: string): string
  {
    if s == [] then ""
    else (if s[0] == '"' then "\"\"" else [s[0]]) + EscapeQuotes(s[1..])
  }

  /** The claim field: the text between double quotes, embedded quotes doubled. */
  function CsvQuote(s: string): string
  {
    "\"" + EscapeQuotes(s) + "\""
  }

  /** Reads the rest of a quoted field after its opening quote: `""` stands for one quote, a lone
      quote closes the field. Gives the field's text and what follows the closing quote. */
  function ParseQuotedBody(s: string): Option<(string, string)>
  {
    if s == [] then None
    else if s[0] == '"' then
      if |s| > 1 && s[1] == '"' then
        match ParseQuotedBody(s[2..])
        case None => None
        case Some((text, rest)) => Some(("\"" + text, rest))
      else Some(("", s[1..]))
    else
      match ParseQuotedBody(s[1..])
      case None => None
      case Some((text, rest)) => Some(([s[0]] + text, rest))
  }

  /** Reads one quoted CSV field from the start of s. */
  function ParseQuotedField(s: string): Option<(string, string)>
  {
    if s != [] && s[0] == '"' then ParseQuotedBody(s[1..]) else None
  }

  lemma {:induction false} QuotedBodyRoundTrip(t: string, rest: string)
    requires rest == [] || rest[0] != '"'
    ensures ParseQuotedBody(EscapeQuotes(t) + "\"" + rest) == Some((t, rest))
  {
    if t == [] {
      assert EscapeQuotes(t) + "\"" + rest == "\"" + rest;
      assert ("\"" + rest)[1..] == rest;
    } else {
      QuotedBodyRoundTrip(t[1..], rest);
      var head := if t[0] == '"' then "\"\"" else [t[0]];
      var tail := EscapeQuotes(t[1..]) + "\"" + rest;
      Regroup4(head, EscapeQuotes(t[1..]), "\"", rest);
      if t[0] == '"' {
        BodyAfterEscapedQuote(tail, t[1..], rest);
        assert "\"" + t[1..] == t;
      } else {
        BodyAfterPlainChar(t[0], tail, t[1..], rest);
        assert [t[0]] + t[1..] == t;
      }
    }
  }

  lemma Regroup4(a: string, b: string, c: string, d: string)
    ensures a + b + c + d == a + (b + c + d)
  {
  }

  /** A doubled quote inside the field reads as one quote, and reading goes on. */
  lemma BodyAfterEscapedQuote(tail: string, text: string, rest: string)
    requires ParseQuotedBody(tail) == Some((text, rest))
    ensures ParseQuotedBody("\"\"" + tail) == Some(("\"" + text, rest))
  {
    var s := "\"\"" + tail;
    assert s[0] == '"' && s[1] == '"' && s[2..] == tail;
  }

  /** Any other character is kept, and reading goes on. */
  lemma BodyAfterPlainChar(c: char, tail: string, text: string, rest: string)
    requires c != '"' && ParseQuotedBody(tail) == Some((text, rest))
    ensures ParseQuotedBody([c] + tail) == Some(([c] + text, rest))
  {
    var s := [c] + tail;
    assert s[0] == c && s[1..] == tail;
  }

  /** The quoted claim field is self-delimiting: read back from the front of a row it yields the
      original text and leaves the rest of the row untouched. */
  lemma QuotedFieldRoundTrip(t: string, rest: string)
    requires rest == [] || rest[0] != '"'
    ensures ParseQuotedField(CsvQuote(t) + rest) == Some((t, rest))
  {
    QuotedBodyRoundTrip(t, rest);
    var s := CsvQuote(t) + rest;
    assert s[1..] == EscapeQuotes(t) + "\"" + rest;
  }

  /** A stance cell: the stance of the first claim stance for the column's domain. */
  function StanceCell(claim: Claim, domain: string): string
  {
    match FindStance(claim.view.stances, domain)
    case Some(s) => s.stance
    case None => "not_mentioned"
  }

  function CsvHeader(sources: seq<Source>): seq<string>
  {
    ["Claim", "Category"] + seq(|sources|, j requires 0 <= j < |sources| => sources[j].domain)
  }

  function CsvRow(claim: Claim, sources: seq<Source>): seq<string>
  {
    [CsvQuote(claim.view.text), claim.category]
      + seq(|sources|, j requires 0 <= j < |sources| => StanceCell(claim, sources[j].domain))
  }

  /** The table: the header, then one row per claim. */
  function CsvTable(story: Story): seq<seq<string>>
  {
    [CsvHeader(story.sources)] + seq(|story.claims|, i requires 0 <= i < |story.claims| => CsvRow(story.claims[i], story.sources))
  }

  /** Fields joined by ",", rows by "\n" (not the CRLF of RFC 4180, section 2, rule 1). */
  function CsvText(rows: seq<seq<string>>): string
  {
    Join(seq(|rows|, i requires 0 <= i < |rows| => Join(rows[i], ",")), "\n")
  }

  /** Every row of the table is as wide as the header: two fixed columns and one per source,
      the header naming the source domains in order; a cell holds the stance of the first claim
      stance for its column's domain, and "not_mentioned" when there is none. */
  lemma CsvTableShape(story: Story)
    ensures var t := CsvTable(story);
      && |t| == 1 + |story.claims|
      && (forall i :: 0 <= i < |t| ==> |t[i]| == 2 + |story.sources|)
      && t[0][0] == "Claim" && t[0][1] == "Category"
      && (forall j :: 0 <= j < |story.sources| ==> t[0][2 + j] == story.sources[j].domain)
      && (forall i :: 0 <= i < |story.claims| ==> t[i + 1][1] == story.claims[i].category)
  {
  }

  /** The cell of claim i under source j: the stance of the first of the claim's stances whose
      outlet is the source's domain, and "not_mentioned" when no stance names that domain. */
  lemma CsvCell(story: Story, i: nat, j: nat)
    requires i < |story.claims| && j < |story.sources|
    ensures var cell := CsvTable(story)[i + 1][2 + j];
      var stances := story.claims[i].view.stances;
      var domain := story.sources[j].domain;
      && ((forall k :: 0 <= k < |stances| ==> stances[k].outlet != domain) ==> cell == "not_mentioned")
      && (forall k :: (0 <= k < |stances| && stances[k].outlet == domain
                         && forall m :: 0 <= m < k ==> stances[m].outlet != domain)
                      ==> cell == stances[k].stance)
  {
    var stances := story.claims[i].view.stances;
    var domain := story.sources[j].domain;
    var r := FindStance(stances, domain);
    forall k | 0 <= k < |stances| && stances[k].outlet == domain
            && (forall m :: 0 <= m < k ==> stances[m].outlet != domain)
      ensures r == Some(stances[k])
    {
      var i' :| 0 <= i' < |stances| && stances[i'] == r.value && r.value.outlet == domain
                && forall m :: 0 <= m < i' ==> stances[m].outlet != domain;
      assert i' == k;
    }
  }

  /** A data row read back from its text begins with the claim's text, intact. */
  lemma CsvRowStartsWithClaim(claim: Claim, sources: seq<Source>)
    ensures var line := Join(CsvRow(claim, sources), ",");
      exists rest :: ParseQuotedField(line) == Some((claim.view.text, rest)) && |rest| >= 1 && rest[0] == ','
  {
    var row := CsvRow(claim, sources);
    var rest := "," + Join(row[1..], ",");
    assert Join(row, ",") == CsvQuote(claim.view.text) + rest;
    QuotedFieldRoundTrip(claim.view.text, rest);
  }

  /** `exportToCSV`: builds the header and one row per claim with nested loops, then joins. */
  method ExportToCsv(story: Story) returns (csv: string)
    ensures csv == CsvText(CsvTable(story))
  {
    var headers := ["Claim", "Category"];
    for j := 0 to |story.sources|
      invariant headers == CsvHeader(story.sources[..j])
    {
      assert story.sources[..j + 1] == story.sources[..j] + [story.sources[j]];
      headers := headers + [story.sources[j].domain];
    }
    assert story.sources[..|story.sources|] == story.sources;
    var rows := [headers];
    for i := 0 to |story.claims|
      invariant rows == CsvTable(story)[..i + 1]
    {
      var claim := story.claims[i];
      var row := [CsvQuote(claim.view.text), claim.category];
      for j := 0 to |story.sources|
        invariant row == CsvRow(claim, story.sources[..j])
      {
        assert story.sources[..j + 1] == story.sources[..j] + [story.sources[j]];
        var stance := FindStance(claim.view.stances, story.sources[j].domain);
        row := row + [if stance.Some? then stance.value.stance else "not_mentioned"];
      }
      assert story.sources[..|story.sources|] == story.sources;
      assert CsvTable(story)[..i + 2] == CsvTable(story)[..i + 1] + [CsvTable(story)[i + 1]];
      rows := rows + [row];
    }
    assert rows == CsvTable(story);
    csv := Join(seq(|rows|, i requires 0 <= i < |rows| => Join(rows[i], ",")), "\n");
  }
}
