# A verified model of the news-and-quiz app's deterministic core

The application is a news reader with quizzes. Its server asks a large language model
(Perplexity's chat completions) for balanced news briefs, entity lists, retrieved articles and
quiz summaries. Its React front end shows articles, claim cards, an outlet-by-claim conflict map,
a source-diversity gauge, quiz results, a quiz history, a leaderboard and a user widget. Around
those calls sits a layer of small deterministic rules, and this project models that layer:
scoring, formatting, filtering, caching and fallbacks. Each source file of the core becomes one
Dafny module of the same name. Each module proves what the file promises.

- `QuizService` (quiz scoring, trending topics, the "Learn More" appendix):
  - `CalculateScore` is a loop proved against the counting function `CorrectAmong`. A lemma proves that this count is the number of correctly answered questions.
  - The percentage is exact round-half-up and is proved to lie in 0..100.
  - `TopicCatalog` is a class. Its `GetTrendingTopics` sorts the catalogue in place by popularity, with a stable insertion order. The result is ordered, a permutation of the catalogue, and unchanged on a second call.
  - The appendix is built by a loop proved against the numbered-lines function.
- `AnalysisApi` (normalising a backend payload into a story, and the CSV export):
  - Every absent field takes the default the client gives it.
  - Claims are tagged by bucket, and the count per category equals the bucket sizes.
  - `ExportToCsv` is a nested loop proved against the table function.
  - The quoted claim field reads back intact (section 2, rule 7 of RFC 4180).
- `ArticleGenerator` (assembling a generated brief):
  - title extraction from the markdown;
  - citations turned into at most eight sources;
  - the coverage heuristic;
  - three placeholder images whose seeds can be read back from their URLs;
  - the error paths of the two generators.
- `ServerLocal` (the local development server):
  - the fallback entity tokeniser and the quoted-substring extraction, proved by round trips;
  - citations mapped to articles with 150-character snippets;
  - the `/analyzeNews` response, whose claim buckets are always empty.
- `MarketData` (the market-data cache policy):
  - The class `MarketCache` owns the one cache slot.
  - Its methods are proved against `MarketDataOutcome`, a function of the slot and of everything else the call depends on.
  - Lemmas prove the policy: fresh entries are served, an entry at the TTL is stale, fetched data is written back, a failed write is invisible, and a failed fetch falls back to the cache.
- `ArticleDetail`:
  - The paragraph/image interleaving loop is proved against `Layout`.
  - Every paragraph appears once and in order.
  - The shown images strictly increase, and images 3 and 9 never appear.
- `DiversityMeter`, `OutletMatrix`, `ClaimCard`, `QuizHistory`, `QuizResults`, `NewsCard`, `UserProfileWidget`, `Leaderboard`, `AuthService`: the front end's pure presentation rules. These cover:
  - score bands and their colours, emoji and messages;
  - distinct counts;
  - matrix cells, which are proved to agree with the CSV cells;
  - stance filters and chip labels;
  - averages and high-score counts;
  - the related-article filter and the share text, which gives its numbers back;
  - time-ago buckets and previews;
  - initials and labels;
  - rank badges and period labels;
  - auth error messages and first-sign-in user records.
- The shared modules:
  - `Wrappers`: `Option` stands for `undefined`/`null` and `Result` for thrown errors.
  - `JsMath`: `Math.round` and `Math.min` over exact integers.
  - `Seqs`: `filter`, `slice`, `map` and `concat`.
  - `Text`: JavaScript's string operations (`trim`, `split`, `join`, `indexOf`, `includes`, `replace` of a first occurrence, ASCII case mapping and number printing).
  - `Perplexity`: the outcome of one chat completion.

The model follows the code. Where a promise holds only partly, the code's behaviour is what is
modelled. The limit is stated under "Left out"; `PercentageHundredOnlyWhenPerfect` is an example.

## Model

| member | source | states |
|---|---|---|
| QuizService.CalculateScore | functions/services/quizService.js:186-212 | the score is the number of correctly answered questions; there is one result per question, in order, with its index, the given answer, the correct option and the explanation; total is the question count; the percentage is the rounded share, or none for an empty quiz |
| QuizService.CorrectAmongIsCount | functions/services/quizService.js:190-196 | the counter equals the size of the set of indices whose answer is present and equals the correct option |
| QuizService.CorrectAmongBounds | functions/services/quizService.js:207-209 | 0 <= score <= total, and score == total exactly when every answer is correct |
| QuizService.PercentageBounds | functions/services/quizService.js:210 | a non-empty quiz has a percentage in 0..100, and a perfect score gives 100 |
| QuizService.PercentageHundredOnlyWhenPerfect | functions/services/quizService.js:210 | with fewer than 200 questions, any wrong answer keeps the percentage below 100 |
| QuizService.PercentageRoundsUpToHundred | functions/services/quizService.js:210 | 199 correct out of 200 rounds up to 100 |
| QuizService.InsertByPopularity | functions/services/quizService.js:24 | insertion adds exactly the new topic to the multiset of topics |
| QuizService.InsertKeepsOrder | functions/services/quizService.js:24 | inserting into a list ordered by non-increasing popularity keeps it ordered |
| QuizService.TrendingTopicsOrdered | functions/services/quizService.js:7-18 | the declared catalogue is already in non-increasing popularity |
| QuizService.TopicCatalog.constructor | functions/services/quizService.js:7-18 | the catalogue starts as the declared topic list |
| QuizService.TopicCatalog.GetTrendingTopics | functions/services/quizService.js:23-25 | the returned list is the new catalogue; it is ordered by popularity and a permutation of the old one; an ordered catalogue is left unchanged, so a second call changes nothing |
| QuizService.NumberedLines | functions/services/quizService.js:160-162 | one line per shown source, line k numbered k + 1 with its title or "Source" and its URL |
| QuizService.AppendNumberedLines | functions/services/quizService.js:160-162 | the appending loop yields the start text followed by all numbered lines in order |
| QuizService.BuildLearnMore | functions/services/quizService.js:157-163 | the appendix built step by step equals the appendix function |
| QuizService.LearnMoreSectionShape | functions/services/quizService.js:157-163 | the appendix is empty exactly when there are no results; otherwise it is the heading followed by min(5, n) lines numbered from 1 in result order |
| QuizService.QuizSummaryOf | functions/services/quizService.js:152-177 | at most five sources; a failed call gives "Great effort! You scored <score> out of <total> on <topic>. Keep learning and improving!" as both summary and markdown, with no sources; otherwise the content, the content plus appendix, and the first five results |
| AnalysisApi.TransformStance | frontend/src/services/api.js:63-69 | outlet is domain, else outlet, else ""; stance defaults to "neutral"; quote and url default to ""; confidence defaults to 0 |
| AnalysisApi.TransformClaim | frontend/src/services/api.js:56-71 | text is canonical_text, else text, else ""; framing defaults to three empty lists; the stances come from outlets, else stances, one transformed stance per raw one, in order |
| AnalysisApi.Tagged | frontend/src/services/api.js:37-39 | one claim per bucket entry, in order, each transformed and tagged with the bucket's name |
| AnalysisApi.TransformAnalysisResponse | frontend/src/services/api.js:32-50 | claims are consensus, then disputed, then missing, each tagged; absent buckets are empty; headline defaults to "Analysis Result"; entities and sources default to [] |
| AnalysisApi.TaggedCount | frontend/src/services/api.js:37-39 | a tagged bucket holds exactly its size in claims of its own category and none of any other |
| AnalysisApi.BucketCounts | frontend/src/services/api.js:36-40 | in the concatenated claim list, each category occurs exactly as often as its bucket is long |
| AnalysisApi.CategoryCounts | frontend/src/services/api.js:33-40 | the story's claim count is the sum of the three bucket sizes, and each category count equals its bucket's size |
| AnalysisApi.FindStance | frontend/src/services/api.js:87 | the result is the first stance whose outlet matches; none only when no stance matches |
| AnalysisApi.QuotedBodyRoundTrip | frontend/src/services/api.js:82 | reading a field whose quotes are doubled, up to its closing quote, gives back the original text and the rest |
| AnalysisApi.QuotedFieldRoundTrip | frontend/src/services/api.js:82 | a quoted claim field read back from the front of a row gives the claim text and leaves the rest untouched |
| AnalysisApi.CsvTableShape | frontend/src/services/api.js:77-91 | one header plus one row per claim; every row has 2 + sources fields; the header is "Claim","Category", then the domains in order; each row carries its claim's category |
| AnalysisApi.CsvCell | frontend/src/services/api.js:86-89 | the cell under a source holds the stance of the claim's first stance for that domain, and "not_mentioned" when none names it |
| AnalysisApi.CsvRowStartsWithClaim | frontend/src/services/api.js:80-94 | a data row's text begins with the quoted claim that reads back intact, followed by a comma |
| AnalysisApi.ExportToCsv | frontend/src/services/api.js:76-95 | the nested loops produce the table's rows joined by commas and newlines |
| ArticleGenerator.StripHeadingMarker | functions/services/articleGenerator.js:105 | the result is a suffix of the line; a line not opening with '#' is untouched |
| ArticleGenerator.LeadingHashes | functions/services/articleGenerator.js:105 | the length of the opening run of '#': the character after it, if any, is not '#' |
| ArticleGenerator.LeadingHashesAreHashes | functions/services/articleGenerator.js:105 | every character of that run is '#' |
| ArticleGenerator.StripHeadingMarkerRemovesMarker | functions/services/articleGenerator.js:105 | for a line opening with '#', the removed prefix is the whole run of '#' followed by all the blanks after it, and what is left does not open with a blank |
| ArticleGenerator.FirstLine | functions/services/articleGenerator.js:102-103 | the first line is the trimmed content up to its first newline, or all of it when it has none; it holds no newline |
| ArticleGenerator.HeadingText | functions/services/articleGenerator.js:105 | the trimmed line for a line not opening with '#', else the trimmed rest after the marker; trimmed, and newline-free when the line is |
| ArticleGenerator.ExtractTitle | functions/services/articleGenerator.js:100-109 | the title is the heading text of the first line when that has 1..149 characters, and "Research Brief: <topic>" otherwise |
| ArticleGenerator.HeadingLineHasNoNewline | functions/services/articleGenerator.js:102-105 | stripping the marker and trimming never brings in a newline |
| ArticleGenerator.TrimKeepsHeading | functions/services/articleGenerator.js:102 | trimming content that opens with a heading keeps the heading line at its front |
| ArticleGenerator.StripMarkerOfHeading | functions/services/articleGenerator.js:105 | "# h" loses exactly its marker and the blank after it |
| ArticleGenerator.FirstLineOfHeading | functions/services/articleGenerator.js:102 | the first line of "# h\nbody" is "# h" |
| ArticleGenerator.HeadingTextOfHeading | functions/services/articleGenerator.js:105 | the heading text of "# h" is h |
| ArticleGenerator.HeadingBecomesTitle | functions/services/articleGenerator.js:100-109 | content opening with "# h" and a newline, where h is 1..149 characters, has title h |
| ArticleGenerator.CitationSources | functions/services/articleGenerator.js:112-122 | at most eight sources; a source is present exactly when one of the first eight citations parses to it |
| ArticleGenerator.CitationSourcesStep | functions/services/articleGenerator.js:112-122 | among the first eight, one more citation appends its source when its URL parses and nothing when it does not, so order and multiplicity follow the citations |
| ArticleGenerator.CitationSourcesOfEmpty | functions/services/articleGenerator.js:112 | no citations give no sources, and only the first eight citations count |
| ArticleGenerator.CitationSourcesKeepOrder | functions/services/articleGenerator.js:112-122 | when every citation parses, the sources are the first min(8, n) citations, in order, titled by hostname without "www." |
| ArticleGenerator.CoverageFor | functions/services/articleGenerator.js:136-141 | 30/40/30 with at least three sources, 33/34/33 otherwise; the coverage sums to 100 and is symmetric |
| ArticleGenerator.ArticleImageAt | functions/services/articleGenerator.js:25-42 | image i uses seed topicSeed + i, which reads back from its URL; its caption is the i-th caption opening ("Visual representation of", "Context and background on", "Related developments in") followed by the topic; its alt text is "Image i+1: topic" |
| ArticleGenerator.ArticleImages | functions/services/articleGenerator.js:23-43 | exactly three images, at seeds topicSeed, +1 and +2, captioned "Visual representation of <topic>", "Context and background on <topic>" and "Related developments in <topic>" |
| ArticleGenerator.TopicSeed | functions/services/articleGenerator.js:23 | the empty topic has seed 0 and a one-character topic the code of its character |
| ArticleGenerator.TopicSeedAppend | functions/services/articleGenerator.js:23 | the seed of a concatenation is the sum of the seeds, so it is the sum of all character codes |
| ArticleGenerator.ArticleImagesDistinct | functions/services/articleGenerator.js:23-26 | the three image URLs are pairwise different |
| ArticleGenerator.FetchArticleImages | functions/services/articleGenerator.js:17-47 | the pushing loop produces the three images, with distinct URLs |
| ArticleGenerator.ImageUrlSeed | functions/services/articleGenerator.js:26 | the seed written into a placeholder URL reads back as the same number |
| ArticleGenerator.GenerateBalancedArticle | functions/services/articleGenerator.js:65-164 | a missing key fails with its own message; a failed completion fails with the wrapped message; otherwise the article has the extracted title, the content, the cited sources, matching coverage, [category], the three images, and the first image as imageUrl |
| ArticleGenerator.QuickSources | functions/services/articleGenerator.js:193-196 | the result is defined exactly when the first five citations all parse, and is then one bare hostname per citation, in order |
| ArticleGenerator.GenerateQuickSummary | functions/services/articleGenerator.js:171-205 | a missing key or a failed completion is an error; for an answered call, "Invalid URL" exactly when one of the first five citations does not parse; success gives title "Recent: <query>", the sources of QuickSources, coverage 33/34/33 and ["User Topic"] |
| ServerLocal.FallbackEntities | functions/server-local.js:50 | at most five entities, each longer than three characters and free of spaces |
| ServerLocal.FallbackEntitiesOfWords | functions/server-local.js:50 | for a headline of space-free words, the entities are the first five words longer than three characters, in order |
| ServerLocal.FindChar | functions/server-local.js:46 | the first position of the character, or none when it does not occur |
| ServerLocal.QuotedSubstrings | functions/server-local.js:46 | every match is non-empty and holds no double quote |
| ServerLocal.QuotedSkipsPlain | functions/server-local.js:46 | text without quotes before a match contributes nothing |
| ServerLocal.QuotedTakesWord | functions/server-local.js:46 | a quoted word is extracted and the scan resumes after its closing quote |
| ServerLocal.QuotedAll | functions/server-local.js:46 | each word is wrapped in double quotes, in order |
| ServerLocal.QuotedWordsRoundTrip | functions/server-local.js:46 | quoted words joined by a quote-free separator are extracted back exactly |
| ServerLocal.ExtractEntities | functions/server-local.js:24-52 | a failed call gives the fallback words; parsed JSON is taken as it is, array or not; content that does not parse gives its quoted substrings; the result is no array exactly when the parsed JSON is none |
| ServerLocal.ArticleFor | functions/server-local.js:77-88 | an article exists exactly when the URL parses; it keeps the URL, takes as domain the hostname without its first "www.", as title "Article from <hostname>", the content slice [150 idx, 150 (idx + 1)) of at most 150 characters as snippet, and the given time |
| ServerLocal.CitationArticles | functions/server-local.js:77 | one mapped article per citation, by position |
| ServerLocal.ArticlesFromCitations | functions/server-local.js:77-91 | at most six articles, each from one of the first ten citations at its own position |
| ServerLocal.ArticleSnippets | functions/server-local.js:83 | each article's snippet is the content slice [150 i, 150 (i + 1)) for its citation's original index i |
| ServerLocal.ArticlesKeepOrder | functions/server-local.js:77-91 | when every citation parses, the articles follow the first min(6, n) citations one to one: each is the article of the citation at its own position, with its snippet |
| ServerLocal.RetrieveArticles | functions/server-local.js:54-92 | a failed call propagates its message; otherwise the articles come from the citations |
| ServerLocal.AnalyzeNews | functions/server-local.js:95-144 | missing input gives 400 before any call; entities that are no array give 500 with the TypeError's message (server-local.js:56, 140-143); a failed retrieval gives 500 with its message; otherwise the reply has the headline, the entities, empty claim buckets, one source per retrieved article (`SourcesOf`), at most six, and meta whose articleCount is the number of articles |
| ServerLocal.SourcesOf | functions/server-local.js:122-126 | one source per article, in order, naming the article's domain, with region "Unknown" and leaning "center" |
| ServerLocal.AnalysisSourcesFollowCitations | functions/server-local.js:77-126 | when every citation parses, the reply's sources are the first min(6, n) citations' hostnames without their first "www.", in the citations' order |
| ServerLocal.LocalAnalysisHasNoClaims | functions/server-local.js:118-135 | the client's story of a local analysis has no claims, and it keeps the headline, the sources and the timestamp |
| MarketData.Ttl | functions/services/marketDataService.js:169 | one hour for scheduled calls, one minute otherwise |
| MarketData.CacheRead | functions/services/marketDataService.js:115-139 | nothing when the slot is empty or the read fails; otherwise the stored data and timestamp, with age now minus timestamp |
| MarketData.MarketCache.constructor | functions/services/marketDataService.js:118-123 | the store starts with an empty slot |
| MarketData.MarketCache.GetCachedMarketData | functions/services/marketDataService.js:115-139 | the read returns the cache-read of the current slot |
| MarketData.MarketCache.SaveCachedMarketData | functions/services/marketDataService.js:144-157 | a successful write replaces the slot with the data and time; a failed one leaves it as it was |
| MarketData.MarketCache.GetMarketData | functions/services/marketDataService.js:163-196 | the value returned and the new slot are those of the policy function |
| MarketData.FreshEntryIsServed | functions/services/marketDataService.js:171-174 | an entry younger than the TTL is returned and the slot is not touched |
| MarketData.EntryAtTtlIsStale | functions/services/marketDataService.js:171 | an entry exactly as old as the TTL is refetched |
| MarketData.FetchedDataIsWrittenBack | functions/services/marketDataService.js:176-183 | on a miss or a stale entry, the fetched data is returned and written with the save time |
| MarketData.WriteOutcomeIsInvisible | functions/services/marketDataService.js:154-156 | the write's success never changes the returned value |
| MarketData.FailedFetchFallsBack | functions/services/marketDataService.js:184-195 | a failed fetch serves the stored entry whatever its age, or propagates the error when there is none |
| MarketData.ActiveFreshIsScheduledFresh | functions/services/marketDataService.js:8-9 | an entry fresh for active users is also fresh for scheduled refreshes |
| MarketData.RepeatedCallServesCache | functions/services/marketDataService.js:163-196 | after a written-back fetch, a second call within the TTL returns the same data from the cache |
| ArticleDetail.FigureOf | frontend/src/pages/ArticleDetail.js:164-190 | the figure shows the image's URL, and floats left exactly for even image indices |
| ArticleDetail.ItemsAt | frontend/src/pages/ArticleDetail.js:134-191 | the paragraph comes first; its figure follows exactly when idx mod 3 = 1 and image floor(idx/2.5) exists |
| ArticleDetail.InterleaveBody | frontend/src/pages/ArticleDetail.js:129-195 | the loop produces the layout of the "\n\n"-separated paragraphs |
| ArticleDetail.ShownImages | frontend/src/pages/ArticleDetail.js:162-163 | every shown index is an existing image, and there are no more than paragraphs |
| ArticleDetail.ItemsAtContents | frontend/src/pages/ArticleDetail.js:134-191 | one step contributes its paragraph text and, when due, its image index |
| ArticleDetail.LayoutContents | frontend/src/pages/ArticleDetail.js:134-191 | the paragraphs appear exactly once and in order; the figures are the shown images; the length is the paragraphs plus the figures |
| ArticleDetail.LayoutParagraphs | frontend/src/pages/ArticleDetail.js:130-159 | the paragraph texts of the layout are exactly the input paragraphs |
| ArticleDetail.LayoutFigures | frontend/src/pages/ArticleDetail.js:161-191 | the figures of the layout are exactly the shown image indices |
| ArticleDetail.SlotGrows | frontend/src/pages/ArticleDetail.js:162 | of two figure-bearing positions, the later one asks for a later image |
| ArticleDetail.ShownImagesSlots | frontend/src/pages/ArticleDetail.js:162-163 | each shown image is the slot of an earlier figure-bearing position |
| ArticleDetail.ShownImagesIncrease | frontend/src/pages/ArticleDetail.js:162-191 | the shown image indices strictly increase, so no image appears twice |
| ArticleDetail.SlotSkipsThreeModSix | frontend/src/pages/ArticleDetail.js:162-163 | no figure-bearing position maps to an image index that is 3 mod 6 |
| ArticleDetail.ImagesThreeAndNineNeverShown | frontend/src/pages/ArticleDetail.js:162-163 | images 3 and 9 never appear on the page |
| DiversityMeter.Distinct | frontend/src/components/DiversityMeter.js:5-6 | the distinct values are exactly the input's values, without repeats, no more of them than inputs, in first-occurrence order |
| DiversityMeter.Regions | frontend/src/components/DiversityMeter.js:5 | the region of each source, in order |
| DiversityMeter.Leanings | frontend/src/components/DiversityMeter.js:6 | the leaning of each source, in order |
| DiversityMeter.DiversityScore | frontend/src/components/DiversityMeter.js:8 | the score is at most 100, and 0 exactly when there are no sources |
| DiversityMeter.DistinctGrows | frontend/src/components/DiversityMeter.js:5-6 | appending a value never lowers the distinct count |
| DiversityMeter.ScoreMonotone | frontend/src/components/DiversityMeter.js:5-8 | appending a source never lowers the score |
| DiversityMeter.ScoreColor | frontend/src/components/DiversityMeter.js:10-14 | green exactly from 75, yellow exactly in 50..74, red exactly below 50 |
| DiversityMeter.NineSourcesMaxOut | frontend/src/components/DiversityMeter.js:8 | nine sources or more always reach the cap of 100 |
| OutletMatrix.StanceSymbol | frontend/src/components/OutletMatrix.js:7-15 | "?" exactly for a stance other than the four known ones |
| OutletMatrix.StanceColor | frontend/src/components/OutletMatrix.js:17-25 | grey exactly for an unknown stance |
| OutletMatrix.SymbolsDistinguishStances | frontend/src/components/OutletMatrix.js:7-25 | different known stances get different symbols and colours |
| OutletMatrix.CellFor | frontend/src/components/OutletMatrix.js:55-60 | the grey "?" cell appears exactly when no stance names the outlet |
| OutletMatrix.ColumnHeaderOfDomain | frontend/src/components/OutletMatrix.js:40 | "name.com" heads its column as "name"; a domain without ".com" as itself |
| OutletMatrix.RowFor | frontend/src/components/OutletMatrix.js:54-63 | one cell per source, in source order, each the cell for that domain |
| OutletMatrix.Matrix | frontend/src/components/OutletMatrix.js:5-47 | one row for each of the first min(5, n) claims, in order |
| OutletMatrix.CellAgreesWithStanceCell | frontend/src/components/OutletMatrix.js:55-60 | the map's cell and the CSV's cell come from the same stance: "?" matches "not_mentioned", otherwise the symbols agree |
| OutletMatrix.MatrixAgreesWithCsv | frontend/src/components/OutletMatrix.js:54-63 | each map cell (i, j) agrees with CSV cell (i + 1, 2 + j) of the exported table |
| ClaimCard.Chips | frontend/src/components/ClaimCard.js:29-31 | the chips are exactly the stances other than "not_mentioned" |
| ClaimCard.Quotes | frontend/src/components/ClaimCard.js:52-54 | the quotes are exactly the stances with a non-empty quote |
| ClaimCard.ChipsAppend | frontend/src/components/ClaimCard.js:29-31 | chips of two runs of stances are the chips of the first then of the second, and one stance is its own chip unless "not_mentioned": original order and multiplicity |
| ClaimCard.QuotesAppend | frontend/src/components/ClaimCard.js:52-54 | quotes of two runs are the quotes of the first then of the second, and one stance is listed exactly when its quote is non-empty |
| ClaimCard.ChipsAndSilences | frontend/src/components/ClaimCard.js:29-31 | every stance is either a chip or a silence, never both |
| ClaimCard.StanceLabel | frontend/src/components/ClaimCard.js:13-18 | a label exists exactly for the four known stances |
| ClaimCard.ChipText | frontend/src/components/ClaimCard.js:36 | the outlet without its first ".com", a space, then the stance's label (nothing for a stance without one) |
| ClaimCard.ChipTextOfDotCom | frontend/src/components/ClaimCard.js:36 | outlet "name.com" shows as "name" followed by the stance label |
| ClaimCard.FramingLine | frontend/src/components/ClaimCard.js:81-91 | the framing line is shown exactly when hedges or loaded terms are non-empty |
| ClaimCard.FramingIgnoresModality | frontend/src/components/ClaimCard.js:81-91 | the modality terms never change the framing line |
| QuizHistory.ScoreColor | frontend/src/pages/QuizHistory.js:43-47 | emerald exactly from 80, amber exactly in 60..79, red exactly below 60 |
| QuizHistory.ScoreEmoji | frontend/src/pages/QuizHistory.js:49-55 | the trophy exactly at 100; the star, thumbs-up, muscle and books bands are disjoint and cover the rest |
| QuizHistory.EmeraldIsTrophyOrStar | frontend/src/pages/QuizHistory.js:43-55 | a score is emerald exactly when its emoji is the trophy or the star |
| QuizHistory.Average | frontend/src/pages/QuizHistory.js:135-140 | an empty history averages 0 |
| QuizHistory.HighScores | frontend/src/pages/QuizHistory.js:155 | the high-score count never exceeds the number of attempts |
| QuizHistory.HighScoresCount | frontend/src/pages/QuizHistory.js:155 | the figure is the number of positions whose attempt scored 80% or more |
| QuizHistory.HistorySummary | frontend/src/pages/QuizHistory.js:122-155 | the total is the history length; high scores never exceed it; an empty history shows 0 everywhere |
| QuizHistory.SumWithin | frontend/src/pages/QuizHistory.js:137 | the sum lies between n times any lower bound and n times any upper bound of the percentages |
| QuizHistory.AverageWithin | frontend/src/pages/QuizHistory.js:135-140 | the rounded average lies within any bounds every attempt respects |
| QuizHistory.HighScoresAreEmerald | frontend/src/pages/QuizHistory.js:155 | the high-score figure counts exactly the attempts shown in emerald |
| QuizHistory.AllHighScores | frontend/src/pages/QuizHistory.js:135-155 | a history of scores from 80 up counts every attempt as high and averages at least 80 |
| QuizResults.ScoreMessage | frontend/src/pages/QuizResults.js:85-91 | each message holds exactly on its band: 100, 80..99, 60..79, 40..59, below 40 |
| QuizResults.EmojiAndMessageAgree | frontend/src/pages/QuizResults.js:77-91 | two percentages share an emoji exactly when they share a message |
| QuizResults.RelatedArticles | frontend/src/pages/QuizResults.js:66-70 | at most three articles, each from the feed and mentioning a topic keyword |
| QuizResults.ShortTopicRelatesNothing | frontend/src/pages/QuizResults.js:69 | a topic whose words all have at most three characters relates no article |
| QuizResults.TitleMentionRelates | frontend/src/pages/QuizResults.js:66-69 | a one-word topic longer than three characters relates every article whose title contains it, whatever the case |
| QuizResults.AnswerLetter | frontend/src/pages/QuizResults.js:254 | options 0..25 show as letters 'A'..'Z' |
| QuizResults.AnswerLetterRoundTrip | frontend/src/pages/QuizResults.js:260 | the shown letter reads back as the option's index |
| QuizResults.ReviewLines | frontend/src/pages/QuizResults.js:251-261 | one line for a given answer, "Your answer: Option <letter>", and one for a wrong answer, last, "Correct answer: Option <letter>" |
| QuizResults.ReviewOfScoredQuestion | frontend/src/pages/QuizResults.js:243-261 | a skipped question shows one line, a right one only the user's answer, a wrong one two different lines |
| QuizResults.ShareText | frontend/src/pages/QuizResults.js:94 | the share text opens with "I scored " and closes with " quiz! Can you beat my score?" |
| QuizResults.CopyText | frontend/src/pages/QuizResults.js:102 | the share text, then a newline, then exactly the page address |
| QuizResults.ShareTextRoundTrip | frontend/src/pages/QuizResults.js:94 | the number after "I scored " reads back as the score, and the number after the slash as the total |
| NewsCard.TimeAgo | frontend/src/components/NewsCard.js:69-78 | an unparseable date gives "NaNd ago"; "Just now" exactly under one minute |
| NewsCard.TimeAgoJustNow | frontend/src/components/NewsCard.js:74 | under a minute, negative times included, reads "Just now" |
| NewsCard.TimeAgoMinutes | frontend/src/components/NewsCard.js:75 | from one minute to under an hour: the whole minutes, 1..59, then "m ago" |
| NewsCard.TimeAgoHours | frontend/src/components/NewsCard.js:76 | from one hour to under a day: the whole hours, 1..23, then "h ago" |
| NewsCard.TimeAgoDays | frontend/src/components/NewsCard.js:77 | from one day: the whole days, at least 1, then "d ago" |
| NewsCard.Preview | frontend/src/components/NewsCard.js:5 | the first min(200, n) characters of the summary followed by "..."; "undefined..." without a summary |
| NewsCard.PreviewCuts | frontend/src/components/NewsCard.js:5 | a summary of at most 200 characters is shown whole; summaries that agree on their first 200 characters share a preview |
| UserProfileWidget.FirstChars | frontend/src/components/UserProfileWidget.js:45-46 | at most one character per word |
| UserProfileWidget.FirstCharsOfWord | frontend/src/components/UserProfileWidget.js:45-46 | one word gives its first character, and an empty word gives nothing |
| UserProfileWidget.FirstCharsAppend | frontend/src/components/UserProfileWidget.js:45-46 | each word contributes in its place: the first characters of two runs of words are those of the first run then those of the second |
| UserProfileWidget.Initials | frontend/src/components/UserProfileWidget.js:42-49 | at most two characters; without a display name, the upper-cased first character of the email, else "?" |
| UserProfileWidget.InitialsOfWords | frontend/src/components/UserProfileWidget.js:42-48 | a name of two or more words shows the capitals of the first two |
| UserProfileWidget.InitialsOfName | frontend/src/components/UserProfileWidget.js:42-48 | a name of space-free pieces joined by single spaces shows the first two of the pieces' first characters, upper-cased, empty pieces adding nothing |
| UserProfileWidget.InitialsOfOneWord | frontend/src/components/UserProfileWidget.js:42-48 | a one-word name shows its capitalised first letter |
| UserProfileWidget.BlankNameHasNoInitials | frontend/src/components/UserProfileWidget.js:42-48 | a display name made only of spaces gives empty initials |
| UserProfileWidget.Label | frontend/src/components/UserProfileWidget.js:70 | the display name when present, else the email's user part |
| UserProfileWidget.LabelOfAddress | frontend/src/components/UserProfileWidget.js:70 | without a display name, "user@domain" is labelled "user" |
| UserProfileWidget.UserOf | frontend/src/components/UserProfileWidget.js:89-97 | the widget shows the stored name, email, points and streak |
| UserProfileWidget.ShowStreak | frontend/src/components/UserProfileWidget.js:91-97 | the streak badge shows exactly when the points line shows (points present) and the streak is present and above zero |
| UserProfileWidget.NewUserWidget | frontend/src/components/UserProfileWidget.js:97 | a newly created user shows no streak badge, and is labelled by the stored name when there is one |
| Leaderboard.RankBadge | frontend/src/pages/Leaderboard.js:60-65 | rank 1 gets the gold medal, 2 the silver, 3 the bronze, and a medal is given exactly for ranks 1..3; any other rank gets "#" followed by its number, in grey |
| Leaderboard.RankBadgesDistinct | frontend/src/pages/Leaderboard.js:60-65 | different ranks get different badges |
| Leaderboard.PeriodLabel | frontend/src/pages/Leaderboard.js:67-75 | "daily" is "Today", "weekly" "This Week", "monthly" "This Month", "alltime" "All Time"; any other key is shown as it is |
| Leaderboard.PeriodLabelIdempotent | frontend/src/pages/Leaderboard.js:67-75 | no label is itself a period key, so labelling twice changes nothing |
| Leaderboard.PeriodLabelsDistinct | frontend/src/pages/Leaderboard.js:67-75 | the four period keys get four different labels |
| Leaderboard.Rows | frontend/src/pages/Leaderboard.js:236-245 | row i holds entry i with rank i + 1 and that rank's badge; it is highlighted exactly in the top three |
| Leaderboard.RowsBadges | frontend/src/pages/Leaderboard.js:236-249 | exactly the first three rows carry medals, and no two rows share a badge |
| Leaderboard.Podium | frontend/src/pages/Leaderboard.js:153-227 | the podium appears exactly for three entries or more; left to right it holds second, first and third place, the same three users as the top of the board |
| AuthService.ParseAuthCode | frontend/src/services/authService.js:261-275 | a recognised code is one whose name is exactly the given string |
| AuthService.ParseCodeName | frontend/src/services/authService.js:261-275 | every code's name is recognised as that code |
| AuthService.KnownAuthMessage | frontend/src/services/authService.js:262-275 | each explained code's message is non-empty and differs from the generic one |
| AuthService.AuthErrorMessage | frontend/src/services/authService.js:260-279 | never empty; a known code gives its fixed message; any other code gives the error's message, else the generic text |
| AuthService.KnownCodesAreTold | frontend/src/services/authService.js:260-279 | a known code's message ignores the error's text, and different codes give different messages |
| AuthService.EmailName | frontend/src/services/authService.js:180 | defined exactly with an email; a prefix of it without "@" |
| AuthService.EmailNameOf | frontend/src/services/authService.js:180 | "user@domain" gives "user" |
| AuthService.FallbackName | frontend/src/services/authService.js:180 | the display name when non-empty, else the email's user part; missing only when both are missing |
| AuthService.FirstSignInName | frontend/src/services/authService.js:177-233 | email and password store the chosen name; Google the display name, else the email's user part; Apple the same when non-empty, else "Apple User", so always a non-empty name |
| AuthService.AppleExtendsGoogle | frontend/src/services/authService.js:227 | Apple stores Google's name when it is non-empty, and "Apple User" otherwise |
| AuthService.NewUserRecord | frontend/src/services/authService.js:177-186 | the new document keeps uid and email, starts with streak 0 and points 0, has no photo for a missing one, and stores the first-sign-in name |
| Text.TrimIsSlice | functions/services/articleGenerator.js:102 | `trim` returns a contiguous slice of its input |
| Text.TrimRemovesOnlySpace | functions/services/articleGenerator.js:102 | `trim` removes only whitespace, from both ends |
| Text.JoinSplit | frontend/src/components/UserProfileWidget.js:44-46 | joining the pieces of a split with the same separator gives back the string |
| Text.SplitJoin | frontend/src/components/UserProfileWidget.js:44-46 | splitting words free of the separator, after joining them, gives back the words |
| Text.ReplaceFirstTrailing | frontend/src/components/ClaimCard.js:36 | replacing the first occurrence of a suffix that occurs nowhere else removes exactly that suffix |
| Text.NatToStringRoundTrip | frontend/src/pages/QuizResults.js:94 | a printed number reads back as itself |
| Text.NatToStringInjective | frontend/src/pages/Leaderboard.js:64 | different numbers print differently |
| Text.Substring | frontend/src/components/NewsCard.js:5 | within bounds, `substring` is the slice |
| JsMath.RoundHalfUpWithin | frontend/src/pages/QuizHistory.js:135-140 | a rounded quotient stays within any bounds its numerator respects |

## Left out

- The LLM, Perplexity and FMP calls, Firestore, the Express routes and the scripts are not modelled.
  - Each call's outcome is a parameter: `Completion`, `EntityReply`, the market `Env`, and the summary reply.
  - Prompts and the JSON parsing of model output are not modelled. Parsed JSON is an input.
- `ExtractEntities`: a parsed array is a list of strings. An array holding numbers, objects or `null`s is not represented; the source would join its items into the query and return them as they are.
- The claim pipeline is not in the code. The local server always returns empty consensus, disputed and missing buckets, and `LocalAnalysisHasNoClaims` states exactly that.
- Market-data formatting (`formatValue`, `formatChange`, the ±0.01 flag) is left out, because it is floating-point `toFixed`/`toLocaleString`.
- QuizRunner's timer and answer state is left out, because its behaviour depends on React scheduling. React rendering, hooks, routing and styling are left out for the same reason.
- Clocks, `Date.now()`, `Math.random()` and ISO timestamps are integer or string parameters. Cache ages are differences of those parameters.
- `new URL(u).hostname` is a parameter `parse: string -> Option<string>`, because it is a library. Its `TypeError` is `None`, or the message "Invalid URL" where it escapes.
- `Option` merges JavaScript's `null` and `undefined`. A default parameter such as `category = 'General'` is applied to both, though JavaScript applies it only to `undefined`.
- Strings are sequences of Unicode scalar values, not UTF-16 code units, so lengths, slices and `TopicSeed`'s character-code sum differ from the source's outside the Basic Multilingual Plane. Case mapping is ASCII only, because the full Unicode tables are not modelled.
- `CalculateScore`, `Percentage`: `Math.round((correct / total) * 100)` is exact round-half-up of 100·score/total, without IEEE-754 division.
- `ImageSlot`: `Math.floor(idx / 2.5)` is computed as 2·idx/5 in integers, the same quotient taken exactly rather than in doubles.
- `PercentageHundredOnlyWhenPerfect`: holds only below 200 questions. With exact rounding, 199 of 200 shows 100%, as `PercentageRoundsUpToHundred` proves; the quizzes hold five questions.
- `AnswerLetter`: requires 65 + k below 0xD800, because Dafny's `char` excludes surrogate code points.
- `CsvTableShape`: the cell contents are stated in the separate lemma `CsvCell`.
- `ArticlesFromCitations`: states membership, the bound and the positions. The order is stated by `ArticlesKeepOrder` only for citations that all parse; unlike `CitationSources`, there is no one-citation step lemma, because the final `slice(0, 6)` cuts after the filter.
- `RelatedArticles`: states bounds and membership only. The order and the "first three" are by `Take` over `Filter` and are not restated as a lemma.
- `Average`: the rounding itself is stated only through `AverageWithin`.
- `ShowStats`, `ShowStreak`: `user.points !== undefined` lets a `null` score through, while `Option` treats `null` as absent, so a profile whose points are `null` shows no stats here.
- `FirstSignInName`: Firestore's rejection of a document whose name is undefined is not modelled.
- The leaderboard medal strings are kept as they stand in the page (a medal emoji whose bytes were mis-decoded).
- The unreachable `catch` branch of `fetchArticleImages` is not modelled, because nothing inside its `try` can throw. Keys such as "constructor" that `labels[periodKey]` would find on the object prototype are treated as unknown keys.
- The server-side article-expiry checks and the 48-hour TTL in the functions' entry file are not part of this model.
