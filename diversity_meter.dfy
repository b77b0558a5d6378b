/** The source-diversity gauge: distinct regions and leanings among the covering outlets, a capped
    score and its colour. */
module DiversityMeter {
  import opened JsMath
  import opened AnalysisApi

  predicate NoDuplicates(s: seq<string>)
  {
    forall i, j :: 0 <= i < j < |s| ==> s[i] != s[j]
  }

  /** r lists values in the order of their first occurrence in s. */
  predicate FirstOccurrenceOrder(r: seq<string>, s: seq<string>)
  {
    forall i, j, b :: 0 <= i < j < |r| && 0 <= b < |s| && s[b] == r[j] ==>
      exists a :: 0 <= a < b && s[a] == r[i]
  }

  /** `[...new Set(s)]`: the values of s without repeats, in the order they first occur. */
  function Distinct(s: seq<string>): (r: seq<string>)
    ensures forall x :: x in r <==> x in s
    ensures NoDuplicates(r)
    ensures |r| <= |s|
    ensures FirstOccurrenceOrder(r, s)
  {
    if s == [] then []
    else
      var init := s[..|s| - 1];
      var last := s[|s| - 1];
      var d := Distinct(init);
      assert s == init + [last];
      if last in d then
        RepeatKeepsOrder(d, init, last);
        d
      else
        NewValueKeepsOrder(d, init, last);
        d + [last]
  }

  /** A value seen before adds nothing: the first occurrences of init + [last] are those of init. */
  lemma RepeatKeepsOrder(d: seq<string>, init: seq<string>, last: string)
    requires forall x :: x in d ==> x in init
    requires FirstOccurrenceOrder(d, init) && last in d
    ensures FirstOccurrenceOrder(d, init + [last])
  {
    var s := init + [last];
    forall i, j, b | 0 <= i < j < |d| && 0 <= b < |s| && s[b] == d[j]
      ensures exists a :: 0 <= a < b && s[a] == d[i] {
      if b < |init| {
        assert init[b] == d[j];
        var a :| 0 <= a < b && init[a] == d[i];
        assert s[a] == d[i];
      } else {
        assert d[i] in init;
        var a :| 0 <= a < |init| && init[a] == d[i];
        assert s[a] == d[i];
      }
    }
  }

  /** A new value goes at the end: it first occurs after everything init holds. */
  lemma NewValueKeepsOrder(d: seq<string>, init: seq<string>, last: string)
    requires forall x :: x in d <==> x in init
    requires FirstOccurrenceOrder(d, init) && last !in d
    ensures FirstOccurrenceOrder(d + [last], init + [last])
  {
    var s := init + [last];
    var r := d + [last];
    forall i, j, b | 0 <= i < j < |r| && 0 <= b < |s| && s[b] == r[j]
      ensures exists a :: 0 <= a < b && s[a] == r[i] {
      assert r[i] == d[i];
      if j < |d| && b < |init| {
        assert r[j] == d[j] && init[b] == d[j];
        var a :| 0 <= a < b && init[a] == d[i];
        assert s[a] == r[i];
      } else {
        assert forall k :: 0 <= k < |init| ==> s[k] == init[k] != last;
        assert d[i] in init;
        var a :| 0 <= a < |init| && init[a] == d[i];
        assert s[a] == r[i];
      }
    }
  }

  function Regions(sources: seq<Source>): (r: seq<string>)
    ensures |r| == |sources| && forall i :: 0 <= i < |sources| ==> r[i] == sources[i].region
  {
    seq(|sources|, i requires 0 <= i < |sources| => sources[i].region)
  }

  function Leanings(sources: seq<Source>): (r: seq<string>)
    ensures |r| == |sources| && forall i :: 0 <= i < |sources| ==> r[i] == sources[i].leaning
  {
    seq(|sources|, i requires 0 <= i < |sources| => sources[i].leaning)
  }

  const MaxScore := 100

  /** min(100, 20 · regions + 15 · leanings + 8 · sources). */
  function DiversityScore(sources: seq<Source>): (score: nat)
    ensures score <= MaxScore
    ensures score == 0 <==> sources == []
  {
    var regions := Distinct(Regions(sources));
    var leanings := Distinct(Leanings(sources));
    assert sources != [] ==> Regions(sources)[0] in regions;
    Min(MaxScore, |regions| * 20 + |leanings| * 15 + |sources| * 8)
  }

  /** Adding a source to a list can only add distinct values. */
  lemma DistinctGrows(s: seq<string>, x: string)
    ensures |Distinct(s)| <= |Distinct(s + [x])|
  {
    assert (s + [x])[..|s|] == s;
  }

  /** Another outlet never lowers the score. */
  lemma ScoreMonotone(sources: seq<Source>, extra: Source)
    ensures DiversityScore(sources) <= DiversityScore(sources + [extra])
  {
    assert Regions(sources + [extra]) == Regions(sources) + [extra.region];
    assert Leanings(sources + [extra]) == Leanings(sources) + [extra.leaning];
    DistinctGrows(Regions(sources), extra.region);
    DistinctGrows(Leanings(sources), extra.leaning);
  }

  /** The gauge colour: green from 75, yellow from 50, red below. */
  function ScoreColor(score: int): (color: string)
    ensures color == "bg-green-500" <==> score >= 75
    ensures color == "bg-yellow-500" <==> 50 <= score < 75
    ensures color == "bg-red-500" <==> score < 50
  {
    if score >= 75 then "bg-green-500"
    else if score >= 50 then "bg-yellow-500"
    else "bg-red-500"
  }

  /** Nine sources reach the cap whatever their regions and leanings; eight never do alone
      (20 + 15 + 64 = 99 with a single region and leaning). */
  lemma NineSourcesMaxOut(sources: seq<Source>)
    requires |sources| >= 9
    ensures DiversityScore(sources) == MaxScore
  {
    assert Regions(sources)[0] in Distinct(Regions(sources));
    assert Leanings(sources)[0] in Distinct(Leanings(sources));
  }
}
