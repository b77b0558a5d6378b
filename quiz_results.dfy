/** The quiz-results page: the score's emoji and message, the related-article filter, the
    answer review and the text shared to social media. */
module QuizResults {
  import opened Wrappers
  import opened Seqs
  import opened Text
  import opened QuizService
  import opened QuizHistory

  // ---------------------------------------------------------------- score bands

  /** The message under the score, on the emoji's thresholds (`ScoreEmoji`). */
  function ScoreMessage(percentage: int): (message: string)
    ensures message == "Perfect Score!" <==> percentage == 100
    ensures message == "Excellent!" <==> percentage != 100 && percentage >= 80
    ensures message == "Good Job!" <==> 60 <= percentage < 80
    ensures message == "Keep Learning!" <==> 40 <= percentage < 60
    ensures message == "Nice Try!" <==> percentage < 40
  {
    if percentage == 100 then "Perfect Score!"
    else if percentage >= 80 then "Excellent!"
    else if percentage >= 60 then "Good Job!"
    else if percentage >= 40 then "Keep Learning!"
    else "Nice Try!"
  }

  /** Emoji and message use one threshold sequence: two percentages share an emoji exactly
      when they share a message, so the page never pairs a trophy with "Excellent!". */
  lemma EmojiAndMessageAgree(p: int, q: int)
    ensures ScoreEmoji(p) == ScoreEmoji(q) <==> ScoreMessage(p) == ScoreMessage(q)
  {
  }

  // ---------------------------------------------------------------- related articles

  /** The text of a feed article the filter looks at. */
  datatype FeedArticle = FeedArticle(title: string, summaryMd: string)

  const MaxRelated := 3

  /** The topic's words: lower-cased, split on single spaces. */
  function Keywords(topic: string): seq<string>
  {
    Split(ToLower(topic), " ")
  }

  /** A keyword counts when longer than three characters and found in the lower-cased
      "<title> <summaryMd>". */
  predicate Mentions(article: FeedArticle, keyword: string)
  {
    |keyword| > 3 && Includes(ToLower(article.title + " " + article.summaryMd), keyword)
  }

  predicate IsRelated(keywords: seq<string>, article: FeedArticle)
  {
    exists i :: 0 <= i < |keywords| && Mentions(article, keywords[i])
  }

  /** The first three articles that mention some keyword of the topic, in feed order. */
  function RelatedArticles(topic: string, articles: seq<FeedArticle>): (related: seq<FeedArticle>)
    ensures |related| <= MaxRelated
    ensures forall a :: a in related ==> a in articles && IsRelated(Keywords(topic), a)
  {
    var keywords := Keywords(topic);
    Take(Filter(articles, a => IsRelated(keywords, a)), MaxRelated)
  }

  /** A topic made only of words of three characters or fewer relates to nothing. */
  lemma ShortTopicRelatesNothing(topic: string, articles: seq<FeedArticle>)
    requires forall i :: 0 <= i < |Keywords(topic)| ==> |Keywords(topic)[i]| <= 3
    ensures RelatedArticles(topic, articles) == []
  {
    var keywords := Keywords(topic);
    forall a | a in articles ensures !IsRelated(keywords, a) {
    }
    NoneKept(articles, a => IsRelated(keywords, a));
  }

  lemma {:induction false} NoneKept(articles: seq<FeedArticle>, p: FeedArticle -> bool)
    requires forall a :: a in articles ==> !p(a)
    ensures Filter(articles, p) == []
  {
    if articles != [] {
      assert !p(articles[0]);
      NoneKept(articles[1..], p);
    }
  }

  lemma {:induction false} ToLowerAppend(a: string, b: string)
    ensures ToLower(a + b) == ToLower(a) + ToLower(b)
  {
  }

  lemma IncludesInPrefix(s: string, t: string, pat: string)
    requires Includes(s, pat)
    ensures Includes(s + t, pat)
  {
    var j :| OccursAt(s, pat, j);
    assert (s + t)[j..j + |pat|] == s[j..j + |pat|];
    assert OccursAt(s + t, pat, j);
  }

  /** A one-word topic longer than three characters relates every article whose title contains
      it, whatever the letter case of either. */
  lemma TitleMentionRelates(topic: string, article: FeedArticle)
    requires |topic| > 3 && !Includes(ToLower(topic), " ")
    requires Includes(ToLower(article.title), ToLower(topic))
    ensures IsRelated(Keywords(topic), article)
  {
    var low := ToLower(topic);
    assert IndexOf(low, " ").None?;
    assert Keywords(topic) == [low];
    ToLowerAppend(article.title, " " + article.summaryMd);
    IncludesInPrefix(ToLower(article.title), ToLower(" " + article.summaryMd), low);
    assert article.title + " " + article.summaryMd == article.title + (" " + article.summaryMd);
    assert Mentions(article, Keywords(topic)[0]);
  }

  // ---------------------------------------------------------------- answer review

  /** `String.fromCharCode(65 + k)`: option k shown as a letter. */
  function AnswerLetter(k: int): (c: char)
    requires 0 <= k && 65 + k < 0xD800
    ensures 0 <= k < 26 ==> 'A' <= c <= 'Z'
  {
    (65 + k) as char
  }

  /** The letter names the option: reading it back gives the index. */
  lemma AnswerLetterRoundTrip(k: int)
    requires 0 <= k && 65 + k < 0xD800
    ensures AnswerLetter(k) as int - 'A' as int == k
  {
  }

  predicate Displayable(answer: int)
  {
    0 <= answer && 65 + answer < 0xD800
  }

  /** The lines under a question in the review: the user's answer when one was given, then the
      correct answer when the user's was wrong. */
  function ReviewLines(item: QuestionResult): (lines: seq<string>)
    requires item.userAnswer.Some? ==> Displayable(item.userAnswer.value)
    requires Displayable(item.correctAnswer)
    ensures |lines| == (if item.userAnswer.Some? then 1 else 0) + (if item.isCorrect then 0 else 1)
    ensures item.userAnswer.Some? ==> lines[0] == "Your answer: Option " + [AnswerLetter(item.userAnswer.value)]
    ensures !item.isCorrect ==> lines[|lines| - 1] == "Correct answer: Option " + [AnswerLetter(item.correctAnswer)]
  {
    (if item.userAnswer.Some? then ["Your answer: Option " + [AnswerLetter(item.userAnswer.value)]] else [])
    + (if item.isCorrect then [] else ["Correct answer: Option " + [AnswerLetter(item.correctAnswer)]])
  }

  /** For a scored question, a skipped one shows only the correct answer, a right one only the
      user's answer, and a wrong one both, naming different options. */
  lemma ReviewOfScoredQuestion(q: Question, answer: Option<int>, idx: nat)
    requires answer.Some? ==> Displayable(answer.value)
    requires Displayable(q.correctOptionIndex)
    ensures var item := QuestionResult(idx, answer, q.correctOptionIndex, IsCorrect(q, answer), q.explanation);
      var lines := ReviewLines(item);
      && (answer.None? ==> |lines| == 1)
      && (IsCorrect(q, answer) ==> lines == ["Your answer: Option " + [AnswerLetter(q.correctOptionIndex)]])
      && (answer.Some? && !IsCorrect(q, answer) ==> |lines| == 2 && lines[0] != lines[1])
  {
    var item := QuestionResult(idx, answer, q.correctOptionIndex, IsCorrect(q, answer), q.explanation);
    var lines := ReviewLines(item);
    if answer.Some? && !IsCorrect(q, answer) {
      assert lines[0][0] == 'Y' && lines[1][0] == 'C';
    }
  }

  // ---------------------------------------------------------------- sharing

  /** A percentage as the template renders it; the NaN of a quiz without questions included. */
  function PercentText(percentage: Option<int>): string
  {
    match percentage
    case Some(p) => IntToString(p)
    case None => "NaN"
  }

  const SharePrefix := "I scored "
  const ShareEnd := " quiz! Can you beat my score?"

  /** What follows the total: the percentage, the topic and the challenge. */
  function ShareTail(percentage: Option<int>, topic: string): (tail: string)
    ensures |tail| > |ShareEnd| && tail[0] == ' '
    ensures tail[|tail| - |ShareEnd|..] == ShareEnd
  {
    var head := " (" + PercentText(percentage) + "%) on the " + topic;
    assert (head + ShareEnd)[|head|..] == ShareEnd;
    head + ShareEnd
  }

  /** "I scored <score>/<total> (<percentage>%) on the <topic> quiz! Can you beat my score?" */
  function ShareText(score: nat, total: nat, percentage: Option<int>, topic: string): (text: string)
    ensures |text| > |SharePrefix| && text[..|SharePrefix|] == SharePrefix
    ensures |text| >= |ShareEnd| && text[|text| - |ShareEnd|..] == ShareEnd
  {
    var head := SharePrefix + NatToString(score) + "/" + NatToString(total);
    var tail := ShareTail(percentage, topic);
    OpensAfterAppend(SharePrefix, SharePrefix + NatToString(score), "/");
    OpensAfterAppend(SharePrefix, SharePrefix + NatToString(score) + "/", NatToString(total));
    OpensAfterAppend(SharePrefix, head, tail);
    EndsAfterPrepend(head, tail, ShareEnd);
    head + tail
  }

  /** The clipboard copy: the share text, a newline, the page's address. */
  function CopyText(shareText: string, pageUrl: string): (text: string)
    ensures |text| == |shareText| + 1 + |pageUrl|
    ensures text[..|shareText|] == shareText && text[|shareText|] == '\n'
    ensures text[|shareText| + 1..] == pageUrl
  {
    shareText + "\n" + pageUrl
  }

  /** The longest run of digits at the front of s. */
  function LeadingDigits(s: string): (d: string)
    ensures |d| <= |s| && d == s[..|d|]
    ensures forall i :: 0 <= i < |d| ==> IsDigit(d[i])
  {
    if s == [] || !IsDigit(s[0]) then [] else [s[0]] + LeadingDigits(s[1..])
  }

  lemma {:induction false} LeadingDigitsOf(d: string, rest: string)
    requires forall i :: 0 <= i < |d| ==> IsDigit(d[i])
    requires rest == [] || !IsDigit(rest[0])
    ensures LeadingDigits(d + rest) == d
  {
    if d == [] {
      assert d + rest == rest;
    } else {
      assert (d + rest)[1..] == d[1..] + rest;
      LeadingDigitsOf(d[1..], rest);
    }
  }

  /** A number written out and followed by anything but a digit reads back as itself. */
  lemma LeadingNumber(n: nat, rest: string)
    requires rest == [] || !IsDigit(rest[0])
    ensures LeadingDigits(NatToString(n) + rest) == NatToString(n)
    ensures DigitsValue(LeadingDigits(NatToString(n) + rest)) == n
  {
    LeadingDigitsOf(NatToString(n), rest);
    NatToStringRoundTrip(n);
  }

  /** The number written at position k of text. */
  function NumberAt(text: string, k: nat): nat
    requires k <= |text|
  {
    DigitsValue(LeadingDigits(text[k..]))
  }

  /** A number written after any prefix reads back at the prefix's end. */
  lemma NumberAfter(prefix: string, n: nat, rest: string)
    requires rest == [] || !IsDigit(rest[0])
    ensures NumberAt(prefix + NatToString(n) + rest, |prefix|) == n
  {
    var text := prefix + NatToString(n) + rest;
    assert text[|prefix|..] == NatToString(n) + rest;
    LeadingNumber(n, rest);
  }

  lemma Regroup(a: string, b: string, c: string, d: string, e: string)
    ensures a + b + c + d + e == a + b + (c + d + e)
  {
  }

  /** Two numbers written after any prefix, apart by a separator that starts with a non-digit
      and followed by anything but a digit, both read back. */
  lemma PairRoundTrip(prefix: string, score: nat, sep: string, total: nat, tail: string)
    requires sep != [] && !IsDigit(sep[0])
    requires tail == [] || !IsDigit(tail[0])
    ensures var text := prefix + NatToString(score) + sep + NatToString(total) + tail;
      && NumberAt(text, |prefix|) == score
      && NumberAt(text, |prefix + NatToString(score) + sep|) == total
  {
    var sc := NatToString(score);
    var tot := NatToString(total);
    Regroup(prefix, sc, sep, tot, tail);
    NumberAfter(prefix, score, sep + tot + tail);
    NumberAfter(prefix + sc + sep, total, tail);
  }

  /** The share text gives the score back: the number after "I scored " reads as the score, and
      the number after the slash as the total. */
  lemma ShareTextRoundTrip(score: nat, total: nat, percentage: Option<int>, topic: string)
    ensures NumberAt(ShareText(score, total, percentage, topic), |SharePrefix|) == score
    ensures NumberAt(ShareText(score, total, percentage, topic), |SharePrefix + NatToString(score) + "/"|) == total
  {
    PairRoundTrip(SharePrefix, score, "/", total, ShareTail(percentage, topic));
  }

}
