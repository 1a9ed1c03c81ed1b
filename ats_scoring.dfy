/** The scores of the analysis engine: the skill-match percentage, the
    compatibility score, rounding to hundredths, and the ATS score. */
module AtsScoring {
  import opened Strings
  import opened Entities
  import opened ContactExtraction

  /** `Math.Min(100, score)`. */
  function MinReal(a: real, b: real): real {
    if a < b then a else b
  }

  /** The skill-match percentage, guarded against an empty job skill list. */
  function SkillMatchPercentage(matchedCount: nat, jobSkillCount: nat): (p: real)
    ensures jobSkillCount == 0 ==> p == 0.0
    ensures jobSkillCount > 0 ==> p * jobSkillCount as real == 100.0 * matchedCount as real
    ensures matchedCount <= jobSkillCount ==> 0.0 <= p <= 100.0
  {
    if jobSkillCount > 0 then matchedCount as real / jobSkillCount as real * 100.0 else 0.0
  }

  /** The compatibility score before rounding: 60% similarity, 40% skill match. */
  function Compatibility(similarity: real, skillMatch: real): (c: real)
    ensures 0.0 <= similarity <= 1.0 && 0.0 <= skillMatch <= 100.0 ==> 0.0 <= c <= 100.0
    ensures similarity == 1.0 && skillMatch == 100.0 ==> c == 100.0
    ensures similarity == 0.0 && skillMatch == 0.0 ==> c == 0.0
  {
    similarity * 100.0 * 0.6 + skillMatch * 0.4
  }

  /** `Math.Round(x, 2)`: the nearest whole number of hundredths, a tie
      going to the even one. */
  function Round2(x: real): (r: real)
    ensures -0.005 <= r - x <= 0.005
    ensures (r * 100.0).Floor as real == r * 100.0
    ensures var y := x * 100.0; y - y.Floor as real == 0.5 ==> (r * 100.0).Floor % 2 == 0
  {
    var y := x * 100.0;
    var f := y.Floor;
    var d := y - f as real;
    var n := if d < 0.5 then f else if d > 0.5 then f + 1 else if f % 2 == 0 then f else f + 1;
    n as real / 100.0
  }

  /** Rounding keeps a score in [0, 100]. */
  lemma Round2StaysInRange(x: real)
    requires 0.0 <= x <= 100.0
    ensures 0.0 <= Round2(x) <= 100.0
  {
    var y := x * 100.0;
    var f := y.Floor;
    assert 0 <= f <= 10000;
    if f == 10000 {
      assert y == 10000.0;
    }
  }

  const Headings: seq<string> := ["Experience", "Education", "Skills", "Projects", "Summary"]

  /** The number of `headings` the text contains, ignoring case. */
  function HeadingsFound(text: string, headings: seq<string>): (n: nat)
    ensures n <= |headings|
    ensures n == |headings| <==> forall h <- headings :: ContainsIgnoreCase(text, h)
    ensures n == 0 <==> forall h <- headings :: !ContainsIgnoreCase(text, h)
  {
    if headings == [] then 0
    else (if ContainsIgnoreCase(text, headings[0]) then 1 else 0) + HeadingsFound(text, headings[1..])
  }

  /** The headings of two lists are counted separately and added. */
  lemma {:induction false} HeadingsFoundAppend(text: string, a: seq<string>, b: seq<string>)
    ensures HeadingsFound(text, a + b) == HeadingsFound(text, a) + HeadingsFound(text, b)
    decreases |a|
  {
    if a == [] {
      assert a + b == b;
    } else {
      assert (a + b)[0] == a[0];
      assert (a + b)[1..] == a[1..] + b;
      HeadingsFoundAppend(text, a[1..], b);
    }
  }

  /** One heading counts 1 when the text contains it ignoring case, else 0. */
  lemma HeadingsFoundOne(text: string, h: string)
    ensures HeadingsFound(text, [h]) == if ContainsIgnoreCase(text, h) then 1 else 0
  {
    assert [h][1..] == [];
  }

  /** Skill coverage, out of 40, with a flat 20 when the job lists no skills. */
  function CoveragePoints(matchedCount: nat, totalJobSkills: nat): real {
    if totalJobSkills > 0 then matchedCount as real / totalJobSkills as real * 40.0 else 20.0
  }

  /** Contact information, out of 20. */
  function ContactPoints(email: string, candidateName: string, rawText: string): real {
    (if email != "" then 7.0 else 0.0)
    + (if candidateName != "" then 7.0 else 0.0)
    + (if PhonePatternMatches(rawText) then 6.0 else 0.0)
  }

  /** Length, out of 20, by the number of space-separated words. */
  function LengthPoints(wordCount: nat): real {
    if 300 <= wordCount <= 1000 then 20.0
    else if 100 < wordCount < 1500 then 10.0
    else 0.0
  }

  /** Headings, out of 20, by the share of the five headings found. */
  function HeadingPoints(rawText: string): real {
    HeadingsFound(rawText, Headings) as real / |Headings| as real * 20.0
  }

  /** The ATS score: the four parts added, capped at 100. */
  function AtsScore(email: string, candidateName: string, rawText: string,
                    matchedCount: nat, totalJobSkills: nat): real
  {
    MinReal(100.0,
      CoveragePoints(matchedCount, totalJobSkills)
      + ContactPoints(email, candidateName, rawText)
      + LengthPoints(|Split(rawText, {' '})|)
      + HeadingPoints(rawText))
  }

  /** The ATS score lies in [0, 100] whenever no more skills are matched than the job lists. */
  lemma AtsScoreInRange(email: string, candidateName: string, rawText: string,
                        matchedCount: nat, totalJobSkills: nat)
    requires matchedCount <= totalJobSkills
    ensures 0.0 <= AtsScore(email, candidateName, rawText, matchedCount, totalJobSkills) <= 100.0
  {
    CoverageInBand(matchedCount, totalJobSkills);
  }

  lemma CoverageInBand(matchedCount: nat, totalJobSkills: nat)
    requires matchedCount <= totalJobSkills
    ensures 0.0 <= CoveragePoints(matchedCount, totalJobSkills) <= 40.0
  {
    if totalJobSkills > 0 {
      var q := matchedCount as real / totalJobSkills as real;
      assert q * totalJobSkills as real == matchedCount as real;
      assert q <= 1.0;
    }
  }

  /** Matching more of the job's skills never lowers the ATS score. */
  lemma AtsScoreMonotoneInMatches(email: string, candidateName: string, rawText: string,
                                  m1: nat, m2: nat, totalJobSkills: nat)
    requires m1 <= m2
    ensures AtsScore(email, candidateName, rawText, m1, totalJobSkills)
         <= AtsScore(email, candidateName, rawText, m2, totalJobSkills)
  {
    if totalJobSkills > 0 {
      var t := totalJobSkills as real;
      var q1, q2 := m1 as real / t, m2 as real / t;
      assert q1 * t == m1 as real && q2 * t == m2 as real;
      assert q1 <= q2;
    }
  }

  /** `CalculateAtsScore`, accumulating the score part by part. The
      `skills` argument is accepted and not used, as in the service. */
  method CalculateAtsScore(resume: Resume, skills: seq<string>, matchedCount: nat, totalJobSkills: nat)
    returns (score: real)
    ensures score == AtsScore(resume.email, resume.candidateName, resume.rawText, matchedCount, totalJobSkills)
  {
    score := 0.0;
    if totalJobSkills > 0 {
      score := score + matchedCount as real / totalJobSkills as real * 40.0;
    } else {
      score := score + 20.0;
    }
    ghost var coverage := score;
    assert coverage == CoveragePoints(matchedCount, totalJobSkills);
    if resume.email != "" {
      score := score + 7.0;
    }
    if resume.candidateName != "" {
      score := score + 7.0;
    }
    if PhonePatternMatches(resume.rawText) {
      score := score + 6.0;
    }
    assert score == coverage + ContactPoints(resume.email, resume.candidateName, resume.rawText);
    ghost var contact := score;
    var wordCount := |Split(resume.rawText, {' '})|;
    if 300 <= wordCount <= 1000 {
      score := score + 20.0;
    } else if 100 < wordCount < 1500 {
      score := score + 10.0;
    }
    assert score == contact + LengthPoints(wordCount);
    var headingsFound := HeadingsFound(resume.rawText, Headings);
    score := score + headingsFound as real / |Headings| as real * 20.0;
    score := MinReal(100.0, score);
  }
}
