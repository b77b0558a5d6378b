/** The deterministic parts of the quiz service: scoring a submitted quiz, listing the trending
    topics by popularity, and the "Learn More" appendix of the post-quiz summary. */
module QuizService {
  import opened Wrappers
  import opened Seqs
  import opened Text
  import opened JsMath

  // ---------------------------------------------------------------- scoring

  datatype Question = Question(
    questionText: string,
    options: seq<string>,
    correctOptionIndex: int,
    explanation: string)

  /** One entry of `results`; `userAnswer` is `None` for a `null` or missing answer. */
  datatype QuestionResult = QuestionResult(
    questionIndex: nat,
    userAnswer: Option<int>,
    correctAnswer: int,
    isCorrect: bool,
    explanation: string)

  /** `percentage` is `None` where the source computes `NaN` (a quiz without questions). */
  datatype ScoreReport = ScoreReport(
    score: nat,
    total: nat,
    percentage: Option<int>,
    results: seq<QuestionResult>)

  /** `userAnswers[idx]`: reading past the end gives `undefined`, which is never correct. */
  function AnswerAt(userAnswers: seq<Option<int>>, idx: nat): Option<int>
  {
    if idx < |userAnswers| then userAnswers[idx] else None
  }

  /** An answer is correct when it is given and equals the question's correct option. */
  predicate IsCorrect(q: Question, answer: Option<int>)
  {
    answer.Some? && answer.value == q.correctOptionIndex
  }

  /** The number of correct answers among the first n questions. */
  function CorrectAmong(questions: seq<Question>, userAnswers: seq<Option<int>>, n: nat): nat
    requires n <= |questions|
  {
    if n == 0 then 0
    else CorrectAmong(questions, userAnswers, n - 1)
         + (if IsCorrect(questions[n - 1], AnswerAt(userAnswers, n - 1)) then 1 else 0)
  }

  /** The indices of the correctly answered questions: an independent description of the score. */
  function CorrectIndices(questions: seq<Question>, userAnswers: seq<Option<int>>, n: nat): set<nat>
    requires n <= |questions|
  {
    set i: nat | i < n && IsCorrect(questions[i], AnswerAt(userAnswers, i))
  }

  /** The score counts exactly the correctly answered questions. */
  lemma {:induction false} CorrectAmongIsCount(questions: seq<Question>, userAnswers: seq<Option<int>>, n: nat)
    requires n <= |questions|
    ensures CorrectAmong(questions, userAnswers, n) == |CorrectIndices(questions, userAnswers, n)|
  {
    if n > 0 {
      CorrectAmongIsCount(questions, userAnswers, n - 1);
      var prev := CorrectIndices(questions, userAnswers, n - 1);
      var now := CorrectIndices(questions, userAnswers, n);
      if IsCorrect(questions[n - 1], AnswerAt(userAnswers, n - 1)) {
        assert now == prev + {n - 1};
      } else {
        assert now == prev;
      }
    }
  }

  /** 0 <= score <= total, and score == total exactly when every answer is correct. */
  lemma {:induction false} CorrectAmongBounds(questions: seq<Question>, userAnswers: seq<Option<int>>, n: nat)
    requires n <= |questions|
    ensures CorrectAmong(questions, userAnswers, n) <= n
    ensures CorrectAmong(questions, userAnswers, n) == n
        <==> forall i :: 0 <= i < n ==> IsCorrect(questions[i], AnswerAt(userAnswers, i))
  {
    if n > 0 {
      CorrectAmongBounds(questions, userAnswers, n - 1);
    }
  }

  /** `Math.round((correct / total) * 100)`, or `None` for NaN when there are no questions. */
  function Percentage(score: nat, total: nat): Option<int>
  {
    if total == 0 then None else Some(RoundHalfUp(100 * score, total))
  }

  /** The percentage lies in 0..100, and a perfect score gives 100. */
  lemma PercentageBounds(score: nat, total: nat)
    requires 0 < total && score <= total
    ensures Percentage(score, total).Some?
    ensures 0 <= Percentage(score, total).value <= 100
    ensures score == total ==> Percentage(score, total).value == 100
  {
    RoundHalfUpWithin(100 * score, total, 0, 100);
    if score == total {
      RoundHalfUpWithin(100 * score, total, 100, 100);
    }
  }

  /** With fewer than 200 questions, 100% is reached only by a perfect score. */
  lemma PercentageHundredOnlyWhenPerfect(score: nat, total: nat)
    requires 0 < total < 200 && score < total
    ensures Percentage(score, total).value < 100
  {
    DivAtMost(200 * score + total, 2 * total, 99);
  }

  /** From 200 questions on, rounding lets one wrong answer still show 100%. */
  lemma PercentageRoundsUpToHundred()
    ensures Percentage(199, 200) == Some(100)
  {
  }

  /** `calculateScore`: walks the questions in order, counting the correct answers and
      recording one result per question. */
  method CalculateScore(questions: seq<Question>, userAnswers: seq<Option<int>>) returns (report: ScoreReport)
    ensures report.score == CorrectAmong(questions, userAnswers, |questions|)
    ensures report.score == |CorrectIndices(questions, userAnswers, |questions|)|
    ensures report.total == |questions|
    ensures report.percentage == Percentage(report.score, report.total)
    ensures |report.results| == |questions|
    ensures forall i :: 0 <= i < |questions| ==>
      var r := report.results[i];
      && r.questionIndex == i
      && r.userAnswer == AnswerAt(userAnswers, i)
      && r.correctAnswer == questions[i].correctOptionIndex
      && r.isCorrect == IsCorrect(questions[i], AnswerAt(userAnswers, i))
      && r.explanation == questions[i].explanation
  {
    var correct := 0;
    var results: seq<QuestionResult> := [];
    var idx := 0;
    while idx < |questions|
      invariant 0 <= idx <= |questions|
      invariant correct == CorrectAmong(questions, userAnswers, idx)
      invariant |results| == idx
      invariant forall i :: 0 <= i < idx ==>
        results[i] == QuestionResult(i, AnswerAt(userAnswers, i), questions[i].correctOptionIndex,
                                     IsCorrect(questions[i], AnswerAt(userAnswers, i)), questions[i].explanation)
    {
      var question := questions[idx];
      var userAnswer := if idx < |userAnswers| then userAnswers[idx] else None;
      var isCorrect := userAnswer.Some? && userAnswer.value == question.correctOptionIndex;
      if isCorrect {
        correct := correct + 1;
      }
      results := results + [QuestionResult(idx, userAnswer, question.correctOptionIndex, isCorrect, question.explanation)];
      idx := idx + 1;
    }
    CorrectAmongIsCount(questions, userAnswers, |questions|);
    report := ScoreReport(correct, |questions|, Percentage(correct, |questions|), results);
  }

  // ---------------------------------------------------------------- trending topics

  datatype Topic = Topic(id: string, name: string, popularity: int, category: string)

  /** The module-level `TRENDING_TOPICS` array as declared. */
  const TrendingTopics: seq<Topic> := [
    Topic("ai-tech", "AI & Technology", 95, "Tech"),
    Topic("climate-change", "Climate Change", 88, "Science"),
    Topic("space-exploration", "Space Exploration", 82, "Science"),
    Topic("global-politics", "Global Politics", 79, "Politics"),
    Topic("renewable-energy", "Renewable Energy", 76, "Science"),
    Topic("cryptocurrency", "Cryptocurrency & Finance", 73, "Business"),
    Topic("healthcare", "Healthcare Innovation", 71, "Health"),
    Topic("education-tech", "Education Technology", 68, "Education"),
    Topic("sports-olympics", "Sports & Olympics", 65, "Sports"),
    Topic("entertainment", "Entertainment & Culture", 62, "Culture")
  ]

  /** Non-increasing popularity, the order `(a, b) => b.popularity - a.popularity` asks for. */
  predicate ByPopularity(s: seq<Topic>)
  {
    forall i, j :: 0 <= i < j < |s| ==> s[i].popularity >= s[j].popularity
  }

  /** Inserts t after every element at least as popular, so equal popularities keep their order
      (`Array.prototype.sort` is stable). */
  function InsertByPopularity(s: seq<Topic>, t: Topic): (r: seq<Topic>)
    ensures multiset(r) == multiset(s) + multiset{t}
  {
    if s == [] || s[|s| - 1].popularity >= t.popularity then s + [t]
    else
      assert s == s[..|s| - 1] + [s[|s| - 1]];
      InsertByPopularity(s[..|s| - 1], t) + [s[|s| - 1]]
  }

  /** Inserting into an ordered sequence keeps it ordered. */
  lemma {:induction false} InsertKeepsOrder(s: seq<Topic>, t: Topic)
    requires ByPopularity(s)
    ensures ByPopularity(InsertByPopularity(s, t))
  {
    if s != [] && s[|s| - 1].popularity < t.popularity {
      var init, last := s[..|s| - 1], s[|s| - 1];
      assert ByPopularity(init) by {
        assert forall i :: 0 <= i < |init| ==> init[i] == s[i];
      }
      InsertKeepsOrder(init, t);
      var r' := InsertByPopularity(init, t);
      forall k | 0 <= k < |r'| ensures r'[k].popularity >= last.popularity {
        InsertedElement(init, t, r'[k]);
        if r'[k] != t {
          var i :| 0 <= i < |init| && init[i] == r'[k];
          assert init[i] == s[i];
        }
      }
      OrderedAppend(r', last);
    }
  }

  /** What an insertion holds is the inserted topic or one that was there before. */
  lemma InsertedElement(s: seq<Topic>, t: Topic, x: Topic)
    requires x in InsertByPopularity(s, t)
    ensures x == t || x in s
  {
    assert x in multiset(InsertByPopularity(s, t));
  }

  lemma OrderedAppend(s: seq<Topic>, last: Topic)
    requires ByPopularity(s)
    requires forall k :: 0 <= k < |s| ==> s[k].popularity >= last.popularity
    ensures ByPopularity(s + [last])
  {
    var r := s + [last];
    forall i, j | 0 <= i < j < |r| ensures r[i].popularity >= r[j].popularity {
      assert r[i] == s[i];
      if j < |s| {
        assert r[j] == s[j];
      }
    }
  }

  /** The catalogue as declared is already ordered by popularity. */
  lemma TrendingTopicsOrdered()
    ensures ByPopularity(TrendingTopics)
  {
  }

  /** Holds the module array that `getTrendingTopics` sorts in place. */
  class TopicCatalog {
    var topics: seq<Topic>

    constructor ()
      ensures topics == TrendingTopics
    {
      topics := TrendingTopics;
    }

    /** `getTrendingTopics`: sorts the array by popularity, keeps the sorted order and returns it.
        An array that is already in order is left as it is, so a second call changes nothing. */
    method GetTrendingTopics() returns (r: seq<Topic>)
      modifies this
      ensures r == topics
      ensures ByPopularity(r)
      ensures multiset(r) == multiset(old(topics))
      ensures ByPopularity(old(topics)) ==> r == old(topics)
    {
      var source := topics;
      var sorted: seq<Topic> := [];
      var i := 0;
      while i < |source|
        invariant 0 <= i <= |source|
        invariant ByPopularity(sorted)
        invariant multiset(sorted) == multiset(source[..i])
        invariant ByPopularity(source) ==> sorted == source[..i]
      {
        assert source[..i + 1] == source[..i] + [source[i]];
        InsertKeepsOrder(sorted, source[i]);
        sorted := InsertByPopularity(sorted, source[i]);
        i := i + 1;
      }
      assert source[..i] == source;
      topics := sorted;
      r := sorted;
    }
  }

  // ---------------------------------------------------------------- quiz summary

  datatype SearchResult = SearchResult(title: Option<string>, url: string)

  /** The answer of the summary call: its markdown and its `search_results`. */
  datatype SummaryReply = SummaryReply(content: string, searchResults: Option<seq<SearchResult>>)

  datatype QuizSummary = QuizSummary(summary: string, sources: seq<SearchResult>, fullMarkdown: string)

  const LearnMoreHeading := "\n\n---\n\n### Learn More\n\n"
  const MaxSummarySources := 5

  /** The line for the k-th source: `k. [title](url)`, with "Source" for a missing title. */
  function LearnMoreLine(k: nat, result: SearchResult): string
  {
    NatToString(k) + ". [" + OrElse(result.title, "Source") + "](" + result.url + ")\n"
  }

  /** The appendix: empty without results, else the heading and the first five sources numbered
      from 1. */
  function LearnMoreSection(results: seq<SearchResult>): string
  {
    if results == [] then ""
    else
      LearnMoreHeading + Concat(NumberedLines(Take(results, MaxSummarySources)))
  }

  /** One line per source, numbered from 1. */
  function NumberedLines(shown: seq<SearchResult>): (lines: seq<string>)
    ensures |lines| == |shown|
    ensures forall k :: 0 <= k < |shown| ==> lines[k] == LearnMoreLine(k + 1, shown[k])
  {
    seq(|shown|, i requires 0 <= i < |shown| => LearnMoreLine(i + 1, shown[i]))
  }

  /** The appendix as the source builds it: the heading, then one appended line per source. */
  method BuildLearnMore(results: seq<SearchResult>) returns (markdown: string)
    ensures markdown == LearnMoreSection(results)
  {
    markdown := "";
    if |results| > 0 {
      markdown := AppendNumberedLines(LearnMoreHeading, Take(results, MaxSummarySources));
    }
  }

  /** The `forEach` that appends `k. [title](url)` for each shown source. */
  method AppendNumberedLines(start: string, shown: seq<SearchResult>) returns (markdown: string)
    ensures markdown == start + Concat(NumberedLines(shown))
  {
    markdown := start;
    ghost var lines := NumberedLines(shown);
    var idx := 0;
    while idx < |shown|
      invariant 0 <= idx <= |shown|
      invariant markdown == start + Concat(lines[..idx])
    {
      var line := LearnMoreLine(idx + 1, shown[idx]);
      ConcatPrefixStep(lines, idx);
      assert line == lines[idx];
      markdown := markdown + line;
      idx := idx + 1;
    }
    assert lines[..idx] == lines;
  }

  /** The appendix lists at most five sources, numbered 1..k in order, and is empty exactly when
      there are no search results. */
  lemma LearnMoreSectionShape(results: seq<SearchResult>)
    ensures LearnMoreSection(results) == "" <==> results == []
    ensures results != [] ==>
      exists lines: seq<string> ::
        && |lines| == JsMath.Min(MaxSummarySources, |results|)
        && (forall k :: 0 <= k < |lines| ==> lines[k] == LearnMoreLine(k + 1, results[k]))
        && LearnMoreSection(results) == LearnMoreHeading + Concat(lines)
  {
    if results != [] {
      var shown := Take(results, MaxSummarySources);
      var lines := NumberedLines(shown);
      assert forall k :: 0 <= k < |lines| ==> lines[k] == LearnMoreLine(k + 1, results[k]);
      assert |LearnMoreHeading| > 0;
    }
  }

  /** The encouragement shown when the summary call fails. */
  function FallbackSummary(topic: string, score: int, total: int): string
  {
    "Great effort! You scored " + IntToString(score) + " out of " + IntToString(total)
    + " on " + topic + ". Keep learning and improving!"
  }

  /** `generateQuizSummary` after the model call: `None` stands for a failed call, which yields
      the fixed encouragement text and no sources. */
  function QuizSummaryOf(topic: string, score: int, total: int, reply: Option<SummaryReply>): (r: QuizSummary)
    ensures |r.sources| <= MaxSummarySources
    ensures reply.None? ==> r.sources == [] && r.summary == r.fullMarkdown
    ensures reply.None? ==> r.summary == FallbackSummary(topic, score, total)
    ensures reply.Some? ==>
      && r.summary == reply.value.content
      && r.fullMarkdown == reply.value.content + LearnMoreSection(reply.value.searchResults.GetOr([]))
      && r.sources == Take(reply.value.searchResults.GetOr([]), MaxSummarySources)
  {
    match reply
    case None =>
      var text := FallbackSummary(topic, score, total);
      QuizSummary(text, [], text)
    case Some(SummaryReply(content, searchResults)) =>
      var results := searchResults.GetOr([]);
      QuizSummary(content, Take(results, MaxSummarySources), content + LearnMoreSection(results))
  }
}
