/** The quiz-history page: one colour and one emoji per score band, and the three summary
    figures over the user's past attempts. */
module QuizHistory {
  import opened Seqs
  import opened JsMath

  /** One past attempt as the history lists it; only the percentage enters the figures. */
  datatype Attempt = Attempt(topic: string, score: nat, total: nat, percentage: int)

  const HighScore := 80

  const Emerald := "text-emerald-700"
  const Amber := "text-amber-700"
  const Red := "text-red-600"

  /** Emerald from 80, amber from 60, red below. */
  function ScoreColor(percentage: int): (color: string)
    ensures color == Emerald <==> percentage >= 80
    ensures color == Amber <==> 60 <= percentage < 80
    ensures color == Red <==> percentage < 60
  {
    if percentage >= 80 then Emerald
    else if percentage >= 60 then Amber
    else Red
  }

  const Trophy := "\U{1F3C6}"
  const Star := "\U{1F31F}"
  const ThumbsUp := "\U{1F44D}"
  const Muscle := "\U{1F4AA}"
  const Books := "\U{1F4DA}"

  /** The trophy for exactly 100, then bands from 80, 60 and 40, the books below. The bands are
      disjoint and cover every percentage, above 100 included (which gets the star). */
  function ScoreEmoji(percentage: int): (emoji: string)
    ensures emoji == Trophy <==> percentage == 100
    ensures emoji == Star <==> percentage != 100 && percentage >= 80
    ensures emoji == ThumbsUp <==> 60 <= percentage < 80
    ensures emoji == Muscle <==> 40 <= percentage < 60
    ensures emoji == Books <==> percentage < 40
  {
    if percentage == 100 then Trophy
    else if percentage >= 80 then Star
    else if percentage >= 60 then ThumbsUp
    else if percentage >= 40 then Muscle
    else Books
  }

  /** An emerald score is exactly one with the trophy or the star. */
  lemma EmeraldIsTrophyOrStar(percentage: int)
    ensures ScoreColor(percentage) == Emerald <==> ScoreEmoji(percentage) in {Trophy, Star}
  {
  }

  function Sum(history: seq<Attempt>): int
  {
    if history == [] then 0 else history[0].percentage + Sum(history[1..])
  }

  /** `Math.round(sum / n)`, or 0 for an empty history. */
  function Average(history: seq<Attempt>): (avg: int)
    ensures history == [] ==> avg == 0
  {
    if |history| > 0 then RoundHalfUp(Sum(history), |history|) else 0
  }

  predicate IsHighScore(a: Attempt)
  {
    a.percentage >= HighScore
  }

  /** The attempts at 80% or more. */
  function HighScores(history: seq<Attempt>): (n: nat)
    ensures n <= |history|
  {
    Count(history, IsHighScore)
  }

  /** The high-score figure is the number of attempts at 80% or more. */
  lemma HighScoresCount(history: seq<Attempt>)
    ensures HighScores(history) == |set i | 0 <= i < |history| && history[i].percentage >= HighScore|
  {
    CountIsIndices(history, IsHighScore, |history|);
    assert history[..|history|] == history;
    assert IndicesWhere(history, IsHighScore, |history|)
        == set i | 0 <= i < |history| && history[i].percentage >= HighScore;
  }

  datatype Summary = Summary(total: nat, average: int, highScores: nat)

  /** The three figures at the top of the page. */
  function HistorySummary(history: seq<Attempt>): (s: Summary)
    ensures s.total == |history|
    ensures s.highScores <= s.total
    ensures s.total == 0 ==> s.average == 0 && s.highScores == 0
  {
    Summary(|history|, Average(history), HighScores(history))
  }

  lemma {:induction false} SumWithin(history: seq<Attempt>, lo: int, hi: int)
    requires forall i :: 0 <= i < |history| ==> lo <= history[i].percentage <= hi
    ensures lo * |history| <= Sum(history) <= hi * |history|
  {
    if history != [] {
      SumWithin(history[1..], lo, hi);
    }
  }

  /** The average lies within any bounds every attempt respects: between 0 and 100 for real
      percentages, and equal to v when every attempt scored v. */
  lemma AverageWithin(history: seq<Attempt>, lo: int, hi: int)
    requires history != []
    requires forall i :: 0 <= i < |history| ==> lo <= history[i].percentage <= hi
    ensures lo <= Average(history) <= hi
  {
    SumWithin(history, lo, hi);
    RoundHalfUpWithin(Sum(history), |history|, lo, hi);
  }

  predicate ShownEmerald(a: Attempt)
  {
    ScoreColor(a.percentage) == Emerald
  }

  /** The high-score figure counts exactly the attempts the list shows in emerald. */
  lemma {:induction false} HighScoresAreEmerald(history: seq<Attempt>)
    ensures HighScores(history) == Count(history, ShownEmerald)
  {
    if history != [] {
      HighScoresAreEmerald(history[1..]);
    }
  }

  /** A history of high scores only counts every attempt and averages at least 80. */
  lemma AllHighScores(history: seq<Attempt>)
    requires history != []
    requires forall i :: 0 <= i < |history| ==> 80 <= history[i].percentage <= 100
    ensures HistorySummary(history).highScores == |history|
    ensures HistorySummary(history).average >= 80
  {
    AverageWithin(history, 80, 100);
    CountAll(history);
  }

  lemma {:induction false} CountAll(history: seq<Attempt>)
    requires forall i :: 0 <= i < |history| ==> history[i].percentage >= 80
    ensures Count(history, IsHighScore) == |history|
  {
    if history != [] {
      CountAll(history[1..]);
    }
  }
}
