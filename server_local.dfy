/** The local development server's analysis route and the two helpers around its completion calls:
    entity extraction with its fallbacks, and turning citations into retrieved articles. */
module ServerLocal {
  import opened Wrappers
  import opened Seqs
  import opened Text
  import opened Perplexity
  import AnalysisApi

  // ---------------------------------------------------------------- extractEntities

  /** A value `JSON.parse` gave back: an array of strings, or a value that is no array (an
      object, a number, a string, a boolean, `null`), carrying the message of the TypeError that
      `entities.slice(0, 3).join(' ')` throws on it. */
  datatype ParsedJson = StringArray(items: seq<string>) | NotAnArray(typeError: string)

  /** The entity call's outcome: it threw (no key, network), or it answered with content that
      `JSON.parse` reads (`json`) or cannot read (`None`). */
  datatype EntityReply = CallFailed | Replied(content: string, json: Option<ParsedJson>)

  const MaxFallbackEntities := 5

  /** The words of the headline longer than three characters, the first five of them. */
  function FallbackEntities(headline: string): (entities: seq<string>)
    ensures |entities| <= MaxFallbackEntities
    ensures forall k :: 0 <= k < |entities| ==> |entities[k]| > 3 && Lacks(entities[k], ' ')
  {
    var words := Split(headline, " ");
    forall k | 0 <= k < |words| ensures Lacks(words[k], ' ') {
      LacksOfNotIncludes(words[k], ' ');
    }
    var long := Filter(words, (w: string) => |w| > 3);
    var r := Take(long, MaxFallbackEntities);
    assert forall k :: 0 <= k < |r| ==> r[k] in long;
    r
  }

  /** A headline made of space-free words yields its long words, in order, at most five. */
  lemma FallbackEntitiesOfWords(words: seq<string>)
    requires |words| >= 1 && forall k :: 0 <= k < |words| ==> Lacks(words[k], ' ')
    ensures FallbackEntities(Join(words, " ")) == Take(Filter(words, (w: string) => |w| > 3), MaxFallbackEntities)
  {
    SplitJoin(words, ' ');
  }

  /** The first index of c in s. */
  function FindChar(s: string, c: char): (r: Option<nat>)
    ensures r.Some? ==> r.value < |s| && s[r.value] == c && Lacks(s[..r.value], c)
    ensures r.None? ==> Lacks(s, c)
  {
    if s == [] then None
    else if s[0] == c then Some(0)
    else match FindChar(s[1..], c)
      case None => None
      case Some(j) => assert s[..j + 1] == [s[0]] + s[1..][..j]; Some(j + 1)
  }

  lemma {:induction false} FindCharIs(s: string, c: char, k: nat)
    requires k < |s| && s[k] == c && Lacks(s[..k], c)
    ensures FindChar(s, c) == Some(k)
  {
    if k > 0 {
      assert s[0] == s[..k][0];
      assert s[1..][..k - 1] == s[..k][1..];
      FindCharIs(s[1..], c, k - 1);
    }
  }

  /** `content.match(/"([^"]+)"/g)` with the quotes then removed: the non-empty runs between
      a double quote and the next one, scanned from the left; `""` matches nothing. */
  function QuotedSubstrings(s: string): (r: seq<string>)
    ensures forall k :: 0 <= k < |r| ==> r[k] != [] && Lacks(r[k], '"')
    decreases |s|
  {
    if s == [] then []
    else if s[0] != '"' then QuotedSubstrings(s[1..])
    else match FindChar(s[1..], '"')
      case None => []
      case Some(j) =>
        if j == 0 then QuotedSubstrings(s[1..])
        else
          assert s[1..1 + j] == s[1..][..j];
          [s[1..1 + j]] + QuotedSubstrings(s[j + 2..])
  }

  function Quoted(w: string): string
  {
    "\"" + w + "\""
  }

  /** Text without quotes before the next match is skipped. */
  lemma {:induction false} QuotedSkipsPlain(plain: string, rest: string)
    requires Lacks(plain, '"')
    ensures QuotedSubstrings(plain + rest) == QuotedSubstrings(rest)
  {
    if plain != [] {
      assert (plain + rest)[0] == plain[0] != '"';
      assert (plain + rest)[1..] == plain[1..] + rest;
      assert forall i :: 0 <= i < |plain| - 1 ==> plain[1..][i] == plain[i + 1];
      var s := plain + rest;
      assert s != [] && s[0] != '"';
      assert QuotedSubstrings(s) == QuotedSubstrings(s[1..]);
      QuotedSkipsPlain(plain[1..], rest);
    } else {
      assert plain + rest == rest;
    }
  }

  /** A quoted word is matched, and scanning resumes after its closing quote. */
  lemma QuotedTakesWord(w: string, rest: string)
    requires w != [] && Lacks(w, '"')
    ensures QuotedSubstrings(Quoted(w) + rest) == [w] + QuotedSubstrings(rest)
  {
    var q := "\"";
    var s := q + w + q + rest;
    var t := w + q + rest;
    WrappedParts(q, w, rest);
    FindCharIs(t, '"', |w|);
    QuotedStep(s, |w|);
  }

  /** The pieces of `q + w + q + rest` for a one-character q. */
  lemma WrappedParts<T>(q: seq<T>, w: seq<T>, rest: seq<T>)
    requires |q| == 1
    ensures var s := q + w + q + rest; var t := w + q + rest;
      && |s| >= |w| + 2 && s[0] == q[0] && s[1..] == t
      && t[..|w|] == w && t[|w|] == q[0]
      && s[1..1 + |w|] == w && s[|w| + 2..] == rest
  {
    var s := q + w + q + rest;
    var t := w + q + rest;
    assert s == q + t;
  }

  /** One step of the scan: an opening quote whose closing quote is j characters on. */
  lemma QuotedStep(s: string, j: nat)
    requires s != [] && s[0] == '"' && j > 0 && FindChar(s[1..], '"') == Some(j)
    ensures 1 + j < |s| && QuotedSubstrings(s) == [s[1..1 + j]] + QuotedSubstrings(s[j + 2..])
  {
  }

  /** Each word between double quotes. */
  function QuotedAll(words: seq<string>): (quoted: seq<string>)
    ensures |quoted| == |words|
    ensures forall k :: 0 <= k < |words| ==> quoted[k] == Quoted(words[k])
  {
    seq(|words|, k requires 0 <= k < |words| => Quoted(words[k]))
  }

  /** The quoted words of a reply like `"a", "b"` come back as they were. */
  lemma {:induction false} QuotedWordsRoundTrip(words: seq<string>, sep: string)
    requires |words| >= 1 && Lacks(sep, '"')
    requires forall k :: 0 <= k < |words| ==> words[k] != [] && Lacks(words[k], '"')
    ensures QuotedSubstrings(Join(QuotedAll(words), sep)) == words
    decreases |words|
  {
    var quoted := QuotedAll(words);
    if |words| == 1 {
      QuotedTakesWord(words[0], "");
      assert Quoted(words[0]) + "" == Quoted(words[0]);
    } else {
      assert quoted[1..] == QuotedAll(words[1..]);
      var rest := Join(quoted[1..], sep);
      Regroup3(quoted[0], sep, rest);
      QuotedTakesWord(words[0], sep + rest);
      QuotedSkipsPlain(sep, rest);
      QuotedWordsRoundTrip(words[1..], sep);
      assert [words[0]] + words[1..] == words;
    }
  }

  lemma Regroup3(a: string, b: string, c: string)
    ensures a + b + c == a + (b + c)
  {
  }

  /** `extractEntities`: the parsed value, else the quoted substrings, else (when the call threw)
      the fallback words of the headline. Only a parsed value can be something other than a list. */
  function ExtractEntities(headline: string, reply: EntityReply): (entities: ParsedJson)
    ensures reply.CallFailed? ==> entities == StringArray(FallbackEntities(headline))
    ensures reply.Replied? && reply.json.Some? ==> entities == reply.json.value
    ensures reply.Replied? && reply.json.None? ==> entities == StringArray(QuotedSubstrings(reply.content))
    ensures entities.NotAnArray? <==> reply.Replied? && reply.json.Some? && reply.json.value.NotAnArray?
  {
    match reply
    case CallFailed => StringArray(FallbackEntities(headline))
    case Replied(content, json) =>
      match json
      case Some(value) => value
      case None => StringArray(QuotedSubstrings(content))
  }

  // ---------------------------------------------------------------- retrieveArticles

  datatype RetrievedArticle = RetrievedArticle(url: string, domain: string, title: string, snippet: string, fetchedAt: string)

  const MaxCitations := 10
  const MaxArticles := 6
  const SnippetLength := 150

  /** The article for the citation at position idx of the citation list, or nothing when its URL
      does not parse. The snippet is cut by that position, not by the article's final position. */
  function ArticleFor(url: string, idx: nat, content: string, parse: string -> Option<string>, nowIso: string): (a: Option<RetrievedArticle>)
    ensures a.Some? <==> parse(url).Some?
    ensures a.Some? ==> a.value.url == url && |a.value.snippet| <= SnippetLength
    ensures a.Some? ==>
      && a.value.domain == ReplaceFirst(parse(url).value, "www.", "")
      && a.value.title == "Article from " + parse(url).value
      && a.value.snippet == Substring(content, idx * SnippetLength, (idx + 1) * SnippetLength)
      && a.value.fetchedAt == nowIso
  {
    match parse(url)
    case None => None
    case Some(host) =>
      Some(RetrievedArticle(url, ReplaceFirst(host, "www.", ""), "Article from " + host,
                            Substring(content, idx * SnippetLength, (idx + 1) * SnippetLength), nowIso))
  }

  /** Each citation mapped to its article, by position. */
  function CitationArticles(citations: seq<string>, content: string, parse: string -> Option<string>, nowIso: string): (mapped: seq<Option<RetrievedArticle>>)
    ensures |mapped| == |citations|
    ensures forall i :: 0 <= i < |citations| ==> mapped[i] == ArticleFor(citations[i], i, content, parse, nowIso)
  {
    seq(|citations|, i requires 0 <= i < |citations| => ArticleFor(citations[i], i, content, parse, nowIso))
  }

  /** The articles of `retrieveArticles` for a given answer: the first ten citations mapped,
      unparseable ones dropped, the first six kept. */
  function ArticlesFromCitations(citations: seq<string>, content: string, parse: string -> Option<string>, nowIso: string): (articles: seq<RetrievedArticle>)
    ensures |articles| <= MaxArticles
    ensures forall a :: a in articles ==>
      exists i :: 0 <= i < |citations| && i < MaxCitations && ArticleFor(citations[i], i, content, parse, nowIso) == Some(a)
  {
    var first := Take(citations, MaxCitations);
    var mapped := CitationArticles(first, content, parse, nowIso);
    var all := Somes(mapped);
    assert forall a :: a in all ==>
      exists i :: 0 <= i < |citations| && i < MaxCitations && ArticleFor(citations[i], i, content, parse, nowIso) == Some(a) by {
      forall a | a in all
        ensures exists i :: 0 <= i < |citations| && i < MaxCitations && ArticleFor(citations[i], i, content, parse, nowIso) == Some(a) {
        var i :| 0 <= i < |mapped| && mapped[i] == Some(a);
        assert first[i] == citations[i];
      }
    }
    Take(all, MaxArticles)
  }

  /** Every retrieved article's snippet is the slice of the answer that belongs to its citation's
      position, at most 150 characters. */
  lemma ArticleSnippets(citations: seq<string>, content: string, parse: string -> Option<string>, nowIso: string)
    ensures forall a :: a in ArticlesFromCitations(citations, content, parse, nowIso) ==>
      exists i :: 0 <= i < |citations| && i < MaxCitations && a.url == citations[i]
        && a.snippet == Substring(content, i * SnippetLength, (i + 1) * SnippetLength)
        && |a.snippet| <= SnippetLength
  {
  }

  /** When every citation parses, the articles follow the citations one to one. */
  lemma ArticlesKeepOrder(citations: seq<string>, content: string, parse: string -> Option<string>, nowIso: string)
    requires forall i :: 0 <= i < |citations| ==> parse(citations[i]).Some?
    ensures var articles := ArticlesFromCitations(citations, content, parse, nowIso);
      && |articles| == (if |citations| < MaxArticles then |citations| else MaxArticles)
      && forall i :: 0 <= i < |articles| ==>
           (articles[i].url == citations[i]
            && articles[i].snippet == Substring(content, i * SnippetLength, (i + 1) * SnippetLength)
            && Some(articles[i]) == ArticleFor(citations[i], i, content, parse, nowIso))
  {
    var first := Take(citations, MaxCitations);
    var mapped := CitationArticles(first, content, parse, nowIso);
    forall i | 0 <= i < |mapped| ensures mapped[i].Some? {
      assert first[i] == citations[i];
    }
    AllSomes(mapped);
    var all := Somes(mapped);
    var articles := Take(all, MaxArticles);
    forall i | 0 <= i < |articles|
      ensures articles[i].url == citations[i]
      ensures articles[i].snippet == Substring(content, i * SnippetLength, (i + 1) * SnippetLength)
      ensures Some(articles[i]) == ArticleFor(citations[i], i, content, parse, nowIso)
    {
      assert articles[i] == all[i] == mapped[i].value;
      assert first[i] == citations[i];
    }
  }

  /** `retrieveArticles`: a failed call (a missing key included) propagates its error. */
  function RetrieveArticles(retrieval: Completion, parse: string -> Option<string>, nowIso: string): (r: Result<seq<RetrievedArticle>, string>)
    ensures retrieval.Failed? <==> r.Err?
    ensures r.Err? ==> r.error == retrieval.message
    ensures r.Ok? ==> r.value == ArticlesFromCitations(retrieval.citations.GetOr([]), retrieval.content, parse, nowIso)
  {
    match retrieval
    case Failed(message) => Err(message)
    case Answered(content, citations) => Ok(ArticlesFromCitations(citations.GetOr([]), content, parse, nowIso))
  }

  // ---------------------------------------------------------------- POST /analyzeNews

  datatype HttpResponse = Status(code: nat, error: string) | Json(body: AnalysisApi.RawResponse)

  const InputRequiredMessage := "Input (URL or headline) required"

  /** `articles.map(a => ({domain: a.domain, region: 'Unknown', leaning: 'center'}))`: one source
      per article, in the articles' order, naming the article's domain. */
  function SourcesOf(articles: seq<RetrievedArticle>): (sources: seq<AnalysisApi.Source>)
    ensures |sources| == |articles|
    ensures forall k :: 0 <= k < |articles| ==>
      sources[k].domain == articles[k].domain && sources[k].region == "Unknown" && sources[k].leaning == "center"
  {
    seq(|articles|, k requires 0 <= k < |articles| => AnalysisApi.Source(articles[k].domain, "Unknown", "center"))
  }

  /** The route handler. `input` is the request's `input` field; the collaborators' outcomes,
      the clock readings and the elapsed time are parameters. */
  function AnalyzeNews(
    input: Option<string>, entityReply: EntityReply, retrieval: Completion,
    parse: string -> Option<string>, nowMs: nat, latency: int, nowIso: string): (r: HttpResponse)
    ensures (input.None? || input.value == "") <==> r == Status(400, InputRequiredMessage)
    ensures input.Some? && input.value != "" && ExtractEntities(input.value, entityReply).NotAnArray? ==>
      r == Status(500, ExtractEntities(input.value, entityReply).typeError)
    ensures input.Some? && input.value != "" && ExtractEntities(input.value, entityReply).StringArray? && retrieval.Failed? ==>
      r == Status(500, retrieval.message)
    ensures r.Json? <==>
      input.Some? && input.value != "" && ExtractEntities(input.value, entityReply).StringArray? && retrieval.Answered?
    ensures r.Json? ==>
      var articles := RetrieveArticles(retrieval, parse, nowIso).value;
      && r.body.headline == Some(input.value)
      && r.body.entities == Some(ExtractEntities(input.value, entityReply).items)
      && r.body.consensus == Some([]) && r.body.disputed == Some([]) && r.body.missing == Some([])
      && r.body.sources == Some(SourcesOf(articles)) && |articles| <= MaxArticles
      && r.body.meta == Some(AnalysisApi.Meta(latency, |articles|, Some(nowIso)))
  {
    if input.None? || input.value == "" then Status(400, InputRequiredMessage)
    else
      var headline := input.value;
      match ExtractEntities(headline, entityReply)
      // The entity call answered, so the key is configured and `getPerplexityClient` in
      // `retrieveArticles` does not throw: the query's `slice(0, 3).join(' ')` throws first.
      case NotAnArray(typeError) => Status(500, typeError)
      case StringArray(entities) =>
        match RetrieveArticles(retrieval, parse, nowIso)
        case Err(message) => Status(500, message)
        case Ok(articles) =>
          Json(AnalysisApi.RawResponse(
            Some("local-" + NatToString(nowMs)), Some(headline), Some(entities), Some(SourcesOf(articles)),
            Some([]), Some([]), Some([]), Some(AnalysisApi.Meta(latency, |articles|, Some(nowIso)))))
  }

  /** When every citation parses, the reply lists one source per citation, up to six, in the
      citations' order: the citation's hostname without its first "www.". */
  lemma AnalysisSourcesFollowCitations(
    input: Option<string>, entityReply: EntityReply, retrieval: Completion,
    parse: string -> Option<string>, nowMs: nat, latency: int, nowIso: string)
    requires AnalyzeNews(input, entityReply, retrieval, parse, nowMs, latency, nowIso).Json?
    requires var c := retrieval.citations.GetOr([]); forall i :: 0 <= i < |c| ==> parse(c[i]).Some?
    ensures var c := retrieval.citations.GetOr([]);
      var body := AnalyzeNews(input, entityReply, retrieval, parse, nowMs, latency, nowIso).body;
      && body.sources.Some?
      && |body.sources.value| == (if |c| < MaxArticles then |c| else MaxArticles)
      && forall i :: 0 <= i < |body.sources.value| ==>
           body.sources.value[i] == AnalysisApi.Source(ReplaceFirst(parse(c[i]).value, "www.", ""), "Unknown", "center")
  {
    var c := retrieval.citations.GetOr([]);
    ArticlesKeepOrder(c, retrieval.content, parse, nowIso);
  }

  /** What the front end makes of the local server's answer: a story with no claims at all, and
      the server's headline and sources. */
  lemma LocalAnalysisHasNoClaims(
    input: Option<string>, entityReply: EntityReply, retrieval: Completion,
    parse: string -> Option<string>, nowMs: nat, latency: int, nowIso: string, clientMs: nat, clientIso: string)
    requires AnalyzeNews(input, entityReply, retrieval, parse, nowMs, latency, nowIso).Json?
    requires nowIso != ""
    ensures var body := AnalyzeNews(input, entityReply, retrieval, parse, nowMs, latency, nowIso).body;
      var story := AnalysisApi.TransformAnalysisResponse(body, clientMs, clientIso);
      && story.claims == []
      && story.headline == input.value
      && story.sources == body.sources.value
      && story.timestamp == nowIso
  {
  }
}
