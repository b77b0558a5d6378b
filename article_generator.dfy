/** Assembling a generated news brief around one chat completion: the title taken from the
    markdown, the citations turned into sources, the coverage heuristic and the placeholder images. */
module ArticleGenerator {
  import opened Wrappers
  import opened Seqs
  import opened Text
  import opened Perplexity

  datatype ArticleSource = ArticleSource(title: string, url: string)

  datatype Coverage = Coverage(left: nat, center: nat, right: nat)

  datatype ArticleImage = ArticleImage(url: string, caption: string, alt: string)

  datatype Article = Article(
    title: string,
    summaryMd: string,
    sources: seq<ArticleSource>,
    coverage: Coverage,
    categories: seq<string>,
    imageUrl: Option<string>,
    images: seq<ArticleImage>)

  datatype QuickSummary = QuickSummary(
    title: string,
    summaryMd: string,
    sources: seq<ArticleSource>,
    coverage: Coverage,
    categories: seq<string>)

  /** The message of the `TypeError` that `new URL` throws on a string it cannot parse. */
  const InvalidUrlMessage := "Invalid URL"
  const MaxArticleSources := 8
  const MaxQuickSources := 5
  const TitleLimit := 150

  // ---------------------------------------------------------------- title

  /** The length of the run of '#' that opens s: it stops at the end of s or at the first
      character that is not '#'. */
  function LeadingHashes(s: string): (n: nat)
    ensures n <= |s|
    ensures n < |s| ==> s[n] != '#'
  {
    if s != [] && s[0] == '#' then 1 + LeadingHashes(s[1..]) else 0
  }

  /** Every character of the opening run is '#'. */
  lemma {:induction false} LeadingHashesAreHashes(s: string)
    ensures forall k :: 0 <= k < LeadingHashes(s) ==> s[k] == '#'
  {
    if s != [] && s[0] == '#' {
      LeadingHashesAreHashes(s[1..]);
      forall k | 0 <= k < LeadingHashes(s) ensures s[k] == '#' {
        if k > 0 {
          assert s[k] == s[1..][k - 1];
        }
      }
    }
  }

  /** `line.replace(/^#+\s*\/, '')`: a markdown heading marker and the blanks after it. A line
      that does not open with '#' is left alone; what is removed from one that does is stated by
      StripHeadingMarkerRemovesMarker. */
  function StripHeadingMarker(line: string): (r: string)
    ensures |r| <= |line| && r == line[|line| - |r|..]
    ensures line == [] || line[0] != '#' ==> r == line
  {
    if line != [] && line[0] == '#' then TrimStart(line[LeadingHashes(line)..]) else line
  }

  /** line minus its suffix r is a heading marker whose hashes end at m: one or more '#', then
      blanks only. */
  predicate HeadingMarker(line: string, m: int, r: string)
  {
    && 1 <= m <= |line| - |r| <= |line|
    && (forall k :: 0 <= k < m ==> line[k] == '#')
    && (forall k :: m <= k < |line| - |r| ==> IsJsSpace(line[k]))
  }

  /** For a heading line, the removed prefix is the whole opening run of '#' followed by all the
      blanks after it, so what is left does not open with a blank. */
  lemma StripHeadingMarkerRemovesMarker(line: string)
    requires line != [] && line[0] == '#'
    ensures var r := StripHeadingMarker(line);
      (r == [] || !IsJsSpace(r[0])) && HeadingMarker(line, LeadingHashes(line), r)
  {
    var n := LeadingHashes(line);
    var d := line[n..];
    var r := TrimStart(d);
    assert StripHeadingMarker(line) == r;
    LeadingHashesAreHashes(line);
    TrimStartRemovesSpace(d);
    SuffixKeeps(line, d, |d| - |r|, IsJsSpace);
  }

  /** A property of the first n characters of a suffix holds of the same characters in the
      whole string. */
  lemma SuffixKeeps(line: string, d: string, n: nat, P: char -> bool)
    requires |d| <= |line| && d == line[|line| - |d|..] && n <= |d|
    requires forall i :: 0 <= i < n ==> P(d[i])
    ensures forall k :: |line| - |d| <= k < |line| - |d| + n ==> P(line[k])
  {
    forall k | |line| - |d| <= k < |line| - |d| + n ensures P(line[k]) {
      assert line[k] == d[k - (|line| - |d|)];
    }
  }

  function FallbackTitle(topic: string): string
  {
    "Research Brief: " + topic
  }

  /** The first line of the trimmed content: the trimmed content up to its first newline, or all
      of it when it has none. */
  function FirstLine(content: string): (line: string)
    ensures !Includes(line, "\n")
    ensures var t := Trim(content);
      && |line| <= |t| && line == t[..|line|]
      && (|line| == |t| || t[|line|] == '\n')
  {
    var t := Trim(content);
    SplitHeadIsPrefix(t, "\n");
    var line := Split(t, "\n")[0];
    OccursAtChar(t, '\n', |line|);
    line
  }

  /** A line without its heading marker, trimmed: the trimmed line itself when the line is not a
      heading, and the trimmed rest after the marker (StripHeadingMarkerRemovesMarker) when it is. */
  function HeadingText(line: string): (text: string)
    ensures Trimmed(text)
    ensures !Includes(line, "\n") ==> NoNewline(text)
    ensures line == [] || line[0] != '#' ==> text == Trim(line)
    ensures line != [] && line[0] == '#' ==> text == Trim(StripHeadingMarker(line))
  {
    HeadingLineHasNoNewline(line);
    Trim(StripHeadingMarker(line))
  }

  /** The title of a generated brief: the first line of the trimmed content without its heading
      marker, when that is 1 to 149 characters long; otherwise "Research Brief: <topic>". */
  function ExtractTitle(content: string, topic: string): (title: string)
    ensures var h := HeadingText(FirstLine(content));
      title == (if 0 < |h| < TitleLimit then h else FallbackTitle(topic))
    ensures title == FallbackTitle(topic)
         || (0 < |title| < TitleLimit && Trimmed(title) && NoNewline(title))
  {
    var first := HeadingText(FirstLine(content));
    if 0 < |first| < TitleLimit then first else FallbackTitle(topic)
  }

  predicate NoNewline(s: string)
  {
    Lacks(s, '\n')
  }

  lemma NoNewlineSuffix(s: string, t: string)
    requires NoNewline(s) && |t| <= |s| && t == s[|s| - |t|..]
    ensures NoNewline(t)
  {
    assert forall k :: 0 <= k < |t| ==> t[k] == s[|s| - |t| + k];
  }

  lemma NoNewlinePrefix(s: string, t: string)
    requires NoNewline(s) && |t| <= |s| && t == s[..|t|]
    ensures NoNewline(t)
  {
    assert forall k :: 0 <= k < |t| ==> t[k] == s[k];
  }

  /** A line cut by a split on "\n" keeps no newline once its marker and blanks are gone. */
  lemma HeadingLineHasNoNewline(line: string)
    ensures !Includes(line, "\n") ==> NoNewline(Trim(StripHeadingMarker(line)))
  {
    if Includes(line, "\n") {
      return;
    }
    LacksOfNotIncludes(line, '\n');
    var stripped := StripHeadingMarker(line);
    NoNewlineSuffix(line, stripped);
    var front := TrimStart(stripped);
    NoNewlineSuffix(stripped, front);
    NoNewlinePrefix(front, TrimEnd(front));
  }

  /** The first piece of a split on "\n" is the text before the first newline. */
  lemma SplitFirstLine(t: string, head: string)
    requires |head| <= |t| && t[..|head|] == head && NoNewline(head)
    requires |t| == |head| || t[|head|] == '\n'
    ensures Split(t, "\n")[0] == head
  {
    var k := |head|;
    forall j | 0 <= j < k ensures !OccursAt(t, "\n", j) {
      assert t[j] == head[j];
    }
    if |t| > k {
      assert t[k..k + 1] == "\n";
    }
    SplitFirst(t, "\n", k);
  }

  /** Trimming content that opens with "# h" keeps at least that heading. */
  lemma TrimKeepsHeading(head: string, rest: string)
    requires |head| > 0 && head[0] == '#' && !IsJsSpace(head[|head| - 1])
    ensures var t := Trim(head + rest); |head| <= |t| && t == (head + rest)[..|t|]
  {
    var s := head + rest;
    assert s[0] == '#';
    assert TrimStart(s) == s;
    assert s[|head| - 1] == head[|head| - 1];
    TrimEndRemovesSpace(s);
  }

  /** "# h" loses its marker and the blank after it. */
  lemma StripMarkerOfHeading(h: string)
    requires h != [] && h[0] != '#' && !IsJsSpace(h[0])
    ensures StripHeadingMarker("# " + h) == h
  {
    StripMarker("# ", h);
  }

  /** The marker m is one '#' and one blank. */
  lemma StripMarker(m: string, h: string)
    requires |m| == 2 && m[0] == '#' && m[1] == ' '
    requires h != [] && h[0] != '#' && !IsJsSpace(h[0])
    ensures StripHeadingMarker(m + h) == h
  {
    var head := m + h;
    var rest := head[1..];
    assert rest[0] == ' ' && rest[1..] == h;
    assert LeadingHashes(rest) == 0;
    assert LeadingHashes(head) == 1;
    assert TrimStart(rest) == TrimStart(h);
  }

  lemma FirstLineOfHeading(h: string, body: string)
    requires h != [] && !IsJsSpace(h[|h| - 1]) && NoNewline(h)
    ensures FirstLine("# " + h + "\n" + body) == "# " + h
  {
    var head := "# " + h;
    var s := head + ("\n" + body);
    assert s == "# " + h + "\n" + body;
    assert head[|head| - 1] == h[|h| - 1];
    TrimKeepsHeading(head, "\n" + body);
    HeadNoNewline(h);
    FirstLineAt(s, head);
  }

  lemma HeadNoNewline(h: string)
    requires NoNewline(h)
    ensures NoNewline("# " + h)
  {
    var head := "# " + h;
    assert forall i :: 2 <= i < |head| ==> head[i] == h[i - 2];
  }

  lemma FirstLineAt(s: string, head: string)
    requires NoNewline(head) && |head| <= |s| && s[..|head|] == head
    requires |s| == |head| || s[|head|] == '\n'
    requires var t := Trim(s); |head| <= |t| && t == s[..|t|]
    ensures FirstLine(s) == head
  {
    var t := Trim(s);
    assert t[..|head|] == head;
    if |t| > |head| {
      assert t[|head|] == s[|head|];
    }
    SplitFirstLine(t, head);
  }

  lemma HeadingTextOfHeading(h: string)
    requires h != [] && h[0] != '#' && !IsJsSpace(h[0]) && !IsJsSpace(h[|h| - 1]) && NoNewline(h)
    ensures HeadingText("# " + h) == h
  {
    StripMarkerOfHeading(h);
    assert TrimStart(h) == h && TrimEnd(h) == h;
  }

  /** A markdown heading line "# h" opening the content gives the title h. */
  lemma HeadingBecomesTitle(h: string, body: string, topic: string)
    requires 0 < |h| < TitleLimit
    requires h[0] != '#' && !IsJsSpace(h[0]) && !IsJsSpace(h[|h| - 1])
    requires NoNewline(h)
    ensures ExtractTitle("# " + h + "\n" + body, topic) == h
  {
    FirstLineOfHeading(h, body);
    HeadingTextOfHeading(h);
  }

  // ---------------------------------------------------------------- sources

  /** One citation as a source: the hostname without its first "www." as title, or nothing when
      the URL does not parse (the `try`/`catch` around `new URL`). */
  function CitationSource(url: string, parse: string -> Option<string>): Option<ArticleSource>
  {
    match parse(url)
    case None => None
    case Some(host) => Some(ArticleSource(ReplaceFirst(host, "www.", ""), url))
  }

  /** The sources of a brief: the first eight citations, mapped, unparseable ones dropped. */
  function CitationSources(citations: seq<string>, parse: string -> Option<string>): (sources: seq<ArticleSource>)
    ensures |sources| <= MaxArticleSources && |sources| <= |citations|
    ensures forall s :: s in sources <==>
      exists i :: 0 <= i < |citations| && i < MaxArticleSources && CitationSource(citations[i], parse) == Some(s)
  {
    var first := Take(citations, MaxArticleSources);
    var mapped := seq(|first|, i requires 0 <= i < |first| => CitationSource(first[i], parse));
    assert forall s :: Some(s) in mapped <==>
      exists i :: 0 <= i < |citations| && i < MaxArticleSources && CitationSource(citations[i], parse) == Some(s) by {
      forall s ensures Some(s) in mapped ==>
        exists i :: 0 <= i < |citations| && i < MaxArticleSources && CitationSource(citations[i], parse) == Some(s) {
        if Some(s) in mapped {
          var i :| 0 <= i < |mapped| && mapped[i] == Some(s);
          assert first[i] == citations[i];
        }
      }
      forall s ensures (exists i :: 0 <= i < |citations| && i < MaxArticleSources && CitationSource(citations[i], parse) == Some(s))
                       ==> Some(s) in mapped {
        if exists i :: 0 <= i < |citations| && i < MaxArticleSources && CitationSource(citations[i], parse) == Some(s) {
          var i :| 0 <= i < |citations| && i < MaxArticleSources && CitationSource(citations[i], parse) == Some(s);
          assert mapped[i] == Some(s);
        }
      }
    }
    Somes(mapped)
  }

  /** When every one of the first eight citations parses, nothing is dropped and order is kept. */
  lemma {:induction false} CitationSourcesKeepOrder(citations: seq<string>, parse: string -> Option<string>)
    requires forall i :: 0 <= i < |citations| ==> parse(citations[i]).Some?
    ensures var sources := CitationSources(citations, parse);
      && |sources| == (if |citations| < MaxArticleSources then |citations| else MaxArticleSources)
      && forall i :: 0 <= i < |sources| ==>
           sources[i] == ArticleSource(ReplaceFirst(parse(citations[i]).value, "www.", ""), citations[i])
  {
    var first := Take(citations, MaxArticleSources);
    var mapped := seq(|first|, i requires 0 <= i < |first| => CitationSource(first[i], parse));
    AllSomes(mapped);
  }

  /** Sources grow one citation at a time: among the first eight, the sources of one more
      citation are the sources so far followed by that citation's source when its URL parses and
      by nothing when it does not. With CitationSourcesOfEmpty this fixes order and multiplicity
      whatever mix of citations parses. */
  lemma CitationSourcesStep(citations: seq<string>, k: nat, parse: string -> Option<string>)
    requires k < |citations| && k < MaxArticleSources
    ensures CitationSources(citations[..k + 1], parse)
         == CitationSources(citations[..k], parse)
            + (match CitationSource(citations[k], parse) case Some(s) => [s] case None => [])
  {
    var a := citations[..k];
    var b := citations[..k + 1];
    var ma := seq(|a|, i requires 0 <= i < |a| => CitationSource(a[i], parse));
    var mb := seq(|b|, i requires 0 <= i < |b| => CitationSource(b[i], parse));
    assert Take(a, MaxArticleSources) == a && Take(b, MaxArticleSources) == b;
    assert mb == ma + [CitationSource(citations[k], parse)];
    SomesAppend(ma, [CitationSource(citations[k], parse)]);
    assert [CitationSource(citations[k], parse)][1..] == [];
  }

  /** No citations, no sources; and only the first eight citations matter. */
  lemma CitationSourcesOfEmpty(citations: seq<string>, parse: string -> Option<string>)
    ensures CitationSources([], parse) == []
    ensures CitationSources(citations, parse) == CitationSources(Take(citations, MaxArticleSources), parse)
  {
    var first := Take(citations, MaxArticleSources);
    assert Take(first, MaxArticleSources) == first;
  }

  /** The balance heuristic: a brief with at least three sources counts as balanced. */
  function CoverageFor(sourceCount: nat): (c: Coverage)
    ensures c.left + c.center + c.right == 100
    ensures c.left == c.right
    ensures sourceCount >= 3 <==> c.center == 40
    ensures sourceCount >= 3 ==> c == Coverage(30, 40, 30)
    ensures sourceCount < 3 ==> c == Coverage(33, 34, 33)
  {
    if sourceCount >= 3 then Coverage(30, 40, 30) else Coverage(33, 34, 33)
  }

  // ---------------------------------------------------------------- images

  /** The sum of the topic's character codes (the `reduce` from 0). */
  function TopicSeed(topic: string): (seed: nat)
    ensures topic == [] ==> seed == 0
    ensures |topic| == 1 ==> seed == topic[0] as nat
  {
    if topic == [] then 0 else TopicSeed(topic[..|topic| - 1]) + topic[|topic| - 1] as nat
  }

  /** The seed adds up over the characters: each character counts once, wherever it stands. */
  lemma {:induction false} TopicSeedAppend(a: string, b: string)
    ensures TopicSeed(a + b) == TopicSeed(a) + TopicSeed(b)
    decreases |b|
  {
    if b == [] {
      assert a + b == a;
    } else {
      var c := b[|b| - 1];
      var front := b[..|b| - 1];
      assert (a + b)[..|a + b| - 1] == a + front;
      assert (a + b)[|a + b| - 1] == c;
      TopicSeedAppend(a, front);
    }
  }

  /** The caption's opening words for the i-th image: the `if`/`else if`/`else` of the loop. */
  function CaptionPrefix(i: nat): string
  {
    if i == 0 then "Visual representation of "
    else if i == 1 then "Context and background on "
    else "Related developments in "
  }

  const PicsumSeedPrefix := "https://picsum.photos/seed/"
  const PicsumSize := "/1200/800"

  function ImageUrl(seed: nat): string
  {
    PicsumSeedPrefix + NatToString(seed) + PicsumSize
  }

  /** The i-th placeholder image for a topic. */
  function ArticleImageAt(topic: string, i: nat): (img: ArticleImage)
    ensures img.url == ImageUrl(TopicSeed(topic) + i)
    ensures UrlSeed(img.url) == TopicSeed(topic) + i
    ensures img.alt == "Image " + NatToString(i + 1) + ": " + topic
    ensures img.caption == CaptionPrefix(i) + topic
  {
    ImageUrlSeed(TopicSeed(topic) + i);
    ArticleImage(ImageUrl(TopicSeed(topic) + i), CaptionPrefix(i) + topic, "Image " + NatToString(i + 1) + ": " + topic)
  }

  /** The three placeholder images of a topic. */
  function ArticleImages(topic: string): (images: seq<ArticleImage>)
    ensures |images| == 3
    ensures forall i :: 0 <= i < 3 ==> images[i] == ArticleImageAt(topic, i)
    ensures forall i :: 0 <= i < 3 ==> UrlSeed(images[i].url) == TopicSeed(topic) + i
    ensures images[0].caption == "Visual representation of " + topic
    ensures images[1].caption == "Context and background on " + topic
    ensures images[2].caption == "Related developments in " + topic
  {
    seq(3, i requires 0 <= i => ArticleImageAt(topic, i))
  }

  /** The three placeholder images have three different URLs. */
  lemma ArticleImagesDistinct(topic: string)
    ensures forall i, j :: 0 <= i < j < 3 ==> ArticleImages(topic)[i].url != ArticleImages(topic)[j].url
  {
  }

  /** `fetchArticleImages`: three images from consecutive seeds, pushed in a loop. */
  method FetchArticleImages(topic: string) returns (images: seq<ArticleImage>)
    ensures images == ArticleImages(topic)
    ensures |images| == 3
    ensures forall i, j :: 0 <= i < j < 3 ==> images[i].url != images[j].url
  {
    var seed := TopicSeed(topic);
    images := [];
    for i := 0 to 3
      invariant images == ArticleImages(topic)[..i]
    {
      var caption := CaptionPrefix(i) + topic;
      var image := ArticleImage(ImageUrl(seed + i), caption, "Image " + NatToString(i + 1) + ": " + topic);
      assert image == ArticleImageAt(topic, i);
      PrefixStep(ArticleImages(topic), i);
      images := images + [image];
    }
    assert images == ArticleImages(topic)[..3];
    ArticleImagesDistinct(topic);
  }

  /** The seed written in a placeholder URL, read back as a number. */
  function UrlSeed(u: string): nat
  {
    if |PicsumSeedPrefix| + |PicsumSize| <= |u| then DigitsValue(u[|PicsumSeedPrefix|..|u| - |PicsumSize|]) else 0
  }

  /** The seed can be read back from the URL, so different seeds give different image URLs. */
  lemma ImageUrlSeed(n: nat)
    ensures UrlSeed(ImageUrl(n)) == n
  {
    var u := ImageUrl(n);
    assert u[|PicsumSeedPrefix|..|u| - |PicsumSize|] == NatToString(n);
    NatToStringRoundTrip(n);
  }

  // ---------------------------------------------------------------- the two generators

  /** `generateBalancedArticle`. A missing key is thrown before the `try` and so is not wrapped;
      a failed completion is rethrown as "Failed to generate article: <message>". */
  function GenerateBalancedArticle(
    topic: string, category: Option<string>, apiKey: Option<string>, completion: Completion,
    parse: string -> Option<string>): (r: Result<Article, string>)
    ensures apiKey.None? || apiKey.value == "" ==> r == Err(MissingKeyMessage)
    ensures apiKey.Some? && apiKey.value != "" && completion.Failed? ==>
      r == Err("Failed to generate article: " + completion.message)
    ensures r.Ok? <==> apiKey.Some? && apiKey.value != "" && completion.Answered?
    ensures r.Ok? ==>
      && r.value.title == ExtractTitle(completion.content, topic)
      && r.value.summaryMd == completion.content
      && r.value.sources == CitationSources(completion.citations.GetOr([]), parse)
      && |r.value.sources| <= MaxArticleSources
      && r.value.coverage == CoverageFor(|r.value.sources|)
      && r.value.categories == [category.GetOr("General")]
      && r.value.images == ArticleImages(topic)
      && r.value.imageUrl == Some(r.value.images[0].url)
  {
    if apiKey.None? || apiKey.value == "" then Err(MissingKeyMessage)
    else match completion
      case Failed(message) => Err("Failed to generate article: " + message)
      case Answered(content, citations) =>
        var sources := CitationSources(citations.GetOr([]), parse);
        var images := ArticleImages(topic);
        var imageUrl := if |images| > 0 then Some(images[0].url) else None;
        Ok(Article(ExtractTitle(content, topic), content, sources, CoverageFor(|sources|),
                   [category.GetOr("General")], imageUrl, images))
  }

  /** The quick-summary sources: the first five citations with their bare hostnames; any of them
      that does not parse makes `new URL` throw, and the whole call fails. */
  function QuickSources(citations: seq<string>, parse: string -> Option<string>): (r: Option<seq<ArticleSource>>)
    ensures r.Some? <==> forall i :: 0 <= i < |citations| && i < MaxQuickSources ==> parse(citations[i]).Some?
    ensures r.Some? ==> (|r.value| == |Take(citations, MaxQuickSources)|
                         && forall i :: 0 <= i < |r.value| ==> r.value[i] == ArticleSource(parse(citations[i]).value, citations[i]))
  {
    var first := Take(citations, MaxQuickSources);
    if forall i :: 0 <= i < |first| ==> parse(first[i]).Some? then
      Some(seq(|first|, i requires 0 <= i < |first| => ArticleSource(parse(first[i]).value, first[i])))
    else None
  }

  /** `generateQuickSummary`: failures of the completion are rethrown as they are. */
  function GenerateQuickSummary(
    query: string, apiKey: Option<string>, completion: Completion, parse: string -> Option<string>): (r: Result<QuickSummary, string>)
    ensures apiKey.None? || apiKey.value == "" ==> r == Err(MissingKeyMessage)
    ensures apiKey.Some? && apiKey.value != "" && completion.Failed? ==> r == Err(completion.message)
    ensures r.Ok? ==>
      && completion.Answered?
      && r.value.title == "Recent: " + query
      && r.value.summaryMd == completion.content
      && |r.value.sources| <= MaxQuickSources
      && r.value.coverage == Coverage(33, 34, 33)
      && r.value.categories == ["User Topic"]
    ensures apiKey.Some? && apiKey.value != "" && completion.Answered? ==>
      (r.Ok? <==> QuickSources(completion.citations.GetOr([]), parse).Some?)
    ensures apiKey.Some? && apiKey.value != "" && completion.Answered? ==>
      (r == Err(InvalidUrlMessage) <==> QuickSources(completion.citations.GetOr([]), parse).None?)
    ensures r.Ok? ==> Some(r.value.sources) == QuickSources(completion.citations.GetOr([]), parse)
  {
    if apiKey.None? || apiKey.value == "" then Err(MissingKeyMessage)
    else match completion
      case Failed(message) => Err(message)
      case Answered(content, citations) =>
        match QuickSources(citations.GetOr([]), parse)
        case None => Err(InvalidUrlMessage)
        case Some(sources) =>
          Ok(QuickSummary("Recent: " + query, content, sources, Coverage(33, 34, 33), ["User Topic"]))
  }
}
