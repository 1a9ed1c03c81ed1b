/** The analysis engine (`ResumeAnalyzerService`): it matches a resume
    against a job description, scores it, extracts contact details and
    builds improvement suggestions, and records the extracted skills on the
    resume and the job.

    The similarity service is injected, so `AnalyzeAsync` receives the
    similarity and label that service answered as parameters. */
module ResumeAnalyzerService {
  import opened Strings
  import opened NlpPreprocessor
  import opened SkillDictionary
  import opened Entities
  import opened SkillPipeline
  import opened ContactExtraction
  import opened SkillMatching
  import opened AtsScoring
  import opened ImprovementSuggestions
  import MLModelService

  /** `CandidateLevel`. */
  datatype CandidateLevel = Junior | Mid | Senior | Reject

  /** The `switch` on the predicted label: exact, case-sensitive matches only. */
  function LevelFromLabel(predicted: string): (level: CandidateLevel)
    ensures level == Junior <==> predicted == "Junior"
    ensures level == Mid <==> predicted == "Mid"
    ensures level == Senior <==> predicted == "Senior"
    ensures level == Reject <==> predicted != "Junior" && predicted != "Mid" && predicted != "Senior"
  {
    if predicted == "Junior" then Junior
    else if predicted == "Mid" then Mid
    else if predicted == "Senior" then Senior
    else Reject
  }

  /** Every label the fallback similarity produces maps onto the level of
      the same name, so the fallback's level is decided by the thresholds. */
  lemma FallbackLabelsMapOntoLevels(similarity: real)
    ensures LevelFromLabel(MLModelService.LevelFor(similarity)) ==
              if similarity > 0.7 then Senior
              else if similarity > 0.5 then Mid
              else if similarity > 0.3 then Junior
              else Reject
  {
  }

  /** What `AnalyzeAsync` returns. */
  datatype AnalysisResult = AnalysisResult(
    resumeId: Guid,
    jobId: Guid,
    compatibilityScore: real,
    skillMatchPercentage: real,
    atsScore: real,
    predictedLevel: CandidateLevel,
    candidateName: string,
    email: string,
    phone: string,
    resumeSkills: seq<string>,
    matchedSkills: seq<string>,
    missingSkills: seq<string>,
    suggestions: seq<Suggestion>)

  /** The result of an analysis, from the resume's and the job's fields and
      the similarity service's answer. */
  function Analysis(resumeId: Guid, candidateName: string, email: string, rawText: string, language: string,
                    jobId: Guid, descriptionText: string, jobLanguage: string,
                    similarity: real, predictedLabel: string): AnalysisResult
  {
    var resumeSkills := SkillsOf(rawText, language);
    var jobSkills := SkillsOf(descriptionText, jobLanguage);
    var matched := Intersect(jobSkills, resumeSkills);
    var missing := Except(jobSkills, resumeSkills);
    var skillMatch := SkillMatchPercentage(|matched|, |jobSkills|);
    var atsScore := AtsScore(email, candidateName, rawText, |matched|, |jobSkills|);
    AnalysisResult(
      resumeId,
      jobId,
      Round2(Compatibility(similarity, skillMatch)),
      Round2(skillMatch),
      Round2(atsScore),
      LevelFromLabel(predictedLabel),
      if candidateName == "" then ExtractName(rawText) else candidateName,
      if email == "" then ExtractEmail(rawText) else email,
      ExtractPhone(rawText),
      resumeSkills,
      matched,
      missing,
      Suggestions(missing, atsScore))
  }

  /** With a similarity in [0, 1], every reported score lies in [0, 100]. */
  lemma AnalysisScoresInRange(resumeId: Guid, candidateName: string, email: string, rawText: string,
                              language: string, jobId: Guid, descriptionText: string, jobLanguage: string,
                              similarity: real, predictedLabel: string)
    requires 0.0 <= similarity <= 1.0
    ensures var r := Analysis(resumeId, candidateName, email, rawText, language,
                              jobId, descriptionText, jobLanguage, similarity, predictedLabel);
            && 0.0 <= r.compatibilityScore <= 100.0
            && 0.0 <= r.skillMatchPercentage <= 100.0
            && 0.0 <= r.atsScore <= 100.0
  {
    var resumeSkills := SkillsOf(rawText, language);
    var jobSkills := SkillsOf(descriptionText, jobLanguage);
    var matched := Intersect(jobSkills, resumeSkills);
    MatchedMissingPartition(jobSkills, resumeSkills);
    assert |matched| <= |jobSkills| by {
      assert |multiset(matched)| <= |multiset(jobSkills)|;
    }
    var skillMatch := SkillMatchPercentage(|matched|, |jobSkills|);
    AtsScoreInRange(email, candidateName, rawText, |matched|, |jobSkills|);
    Round2StaysInRange(Compatibility(similarity, skillMatch));
    Round2StaysInRange(skillMatch);
    Round2StaysInRange(AtsScore(email, candidateName, rawText, |matched|, |jobSkills|));
  }

  /** Caller-supplied contact details are kept; missing ones are extracted.
      The phone is always extracted. */
  lemma AnalysisContactDetails(resumeId: Guid, candidateName: string, email: string, rawText: string,
                               language: string, jobId: Guid, descriptionText: string, jobLanguage: string,
                               similarity: real, predictedLabel: string)
    ensures var r := Analysis(resumeId, candidateName, email, rawText, language,
                              jobId, descriptionText, jobLanguage, similarity, predictedLabel);
            && (email != "" ==> r.email == email)
            && (email == "" ==> r.email == "" || '@' in r.email)
            && (candidateName != "" ==> r.candidateName == candidateName)
            && (candidateName == "" ==> '\n' !in r.candidateName && '\r' !in r.candidateName)
            && (!PhonePatternMatches(rawText) ==> r.phone == "")
            && (email == "" ==> r.email == ExtractEmail(rawText))
            && (candidateName == "" ==> r.candidateName == ExtractName(rawText))
            && r.phone == ExtractPhone(rawText)
  {
  }

  /** On the fallback path the level follows the thresholds applied to the
      similarity value `s` the service reports through its square. */
  lemma FallbackLevelFollowsThresholds(rawText: string, descriptionText: string, s: real)
    requires s >= 0.0 && s * s == MLModelService.Squared(MLModelService.CosineSimilarity(rawText, descriptionText))
    ensures LevelFromLabel(MLModelService.FallbackLevel(MLModelService.CosineSimilarity(rawText, descriptionText)))
         == (if s > 0.7 then Senior else if s > 0.5 then Mid else if s > 0.3 then Junior else Reject)
  {
    MLModelService.FallbackLevelMatchesThresholds(rawText, descriptionText, s);
    FallbackLabelsMapOntoLevels(s);
  }

  /** On the fallback path the similarity value `s` lies in [0, 1], so the
      scores are in range and the level follows the thresholds. */
  lemma FallbackAnalysisInRange(resumeId: Guid, candidateName: string, email: string, rawText: string,
                                language: string, jobId: Guid, descriptionText: string, jobLanguage: string,
                                s: real)
    requires s >= 0.0 && s * s == MLModelService.Squared(MLModelService.CosineSimilarity(rawText, descriptionText))
    ensures var r := Analysis(resumeId, candidateName, email, rawText, language, jobId, descriptionText,
                              jobLanguage, s, MLModelService.FallbackLevel(MLModelService.CosineSimilarity(rawText, descriptionText)));
            && 0.0 <= r.compatibilityScore <= 100.0
            && r.predictedLevel == (if s > 0.7 then Senior else if s > 0.5 then Mid else if s > 0.3 then Junior else Reject)
  {
    var predicted := MLModelService.FallbackLevel(MLModelService.CosineSimilarity(rawText, descriptionText));
    MLModelService.FallbackValueInUnitRange(rawText, descriptionText, s);
    FallbackLevelFollowsThresholds(rawText, descriptionText, s);
    AnalysisScoresInRange(resumeId, candidateName, email, rawText, language, jobId, descriptionText,
                          jobLanguage, s, predicted);
  }

  /** The first loop of `AnalyzeAsync`: each extracted resume skill goes
      through `AddSkill` as a new skill of category "auto". */
  method RecordResumeSkills(resume: Resume, skills: seq<string>)
    modifies resume`skills
    ensures |old(resume.skills)| <= |resume.skills| && resume.skills[..|old(resume.skills)|] == old(resume.skills)
    ensures Names(resume.skills) == MergeNames(Names(old(resume.skills)), skills)
    ensures forall k :: |old(resume.skills)| <= k < |resume.skills| ==>
              fresh(resume.skills[k]) && resume.skills[k].category == "auto" && resume.skills[k].weight == 1
    ensures old(resume.Valid()) ==> resume.Valid()
  {
    for i := 0 to |skills|
      invariant |old(resume.skills)| <= |resume.skills|
      invariant resume.skills[..|old(resume.skills)|] == old(resume.skills)
      invariant Names(resume.skills) == MergeNames(Names(old(resume.skills)), skills[..i])
      invariant forall k :: |old(resume.skills)| <= k < |resume.skills| ==>
                  fresh(resume.skills[k]) && resume.skills[k].category == "auto" && resume.skills[k].weight == 1
      invariant old(resume.Valid()) ==> resume.Valid()
    {
      var skill := new Skill(skills[i], "auto");
      ghost var before := resume.skills;
      resume.AddSkill(skill);
      NamesWithSkill(before, skill);
      assert skills[..i + 1][..i] == skills[..i];
    }
    assert skills[..|skills|] == skills;
  }

  /** The second loop of `AnalyzeAsync`: each extracted job skill goes
      through `AddRequiredSkill` as a new skill of category "required". */
  method RecordJobSkills(job: JobDescription, skills: seq<string>)
    modifies job`requiredSkills
    ensures |old(job.requiredSkills)| <= |job.requiredSkills|
    ensures job.requiredSkills[..|old(job.requiredSkills)|] == old(job.requiredSkills)
    ensures Names(job.requiredSkills) == Names(old(job.requiredSkills)) + skills
    ensures forall k :: |old(job.requiredSkills)| <= k < |job.requiredSkills| ==>
              fresh(job.requiredSkills[k]) && job.requiredSkills[k].category == "required"
              && job.requiredSkills[k].weight == 1
  {
    for i := 0 to |skills|
      invariant |old(job.requiredSkills)| <= |job.requiredSkills|
      invariant job.requiredSkills[..|old(job.requiredSkills)|] == old(job.requiredSkills)
      invariant Names(job.requiredSkills) == Names(old(job.requiredSkills)) + skills[..i]
      invariant forall k :: |old(job.requiredSkills)| <= k < |job.requiredSkills| ==>
                  fresh(job.requiredSkills[k]) && job.requiredSkills[k].category == "required"
                  && job.requiredSkills[k].weight == 1
    {
      var skill := new Skill(skills[i], "required");
      job.AddRequiredSkill(skill);
      assert Names(job.requiredSkills) == Names(old(job.requiredSkills)) + skills[..i] + [skills[i]];
      assert skills[..i + 1] == skills[..i] + [skills[i]];
    }
    assert skills[..|skills|] == skills;
  }

  /** The steps of `AnalyzeAsync` after the skills are recorded: matching,
      the scores, the level, the contact details and the suggestions. */
  method ScoreAndSuggest(resume: Resume, job: JobDescription, resumeSkills: seq<string>, jobSkills: seq<string>,
                         similarityScore: real, predictedLabel: string)
    returns (result: AnalysisResult)
    requires resumeSkills == SkillsOf(resume.rawText, resume.language)
    requires jobSkills == SkillsOf(job.descriptionText, job.language)
    ensures result == Analysis(resume.id, resume.candidateName, resume.email, resume.rawText, resume.language,
                               job.id, job.descriptionText, job.language, similarityScore, predictedLabel)
  {
    var matched := Intersect(jobSkills, resumeSkills);
    var missing := Except(jobSkills, resumeSkills);

    var skillMatch := SkillMatchPercentage(|matched|, |jobSkills|);

    var atsScore := CalculateAtsScore(resume, resumeSkills, |matched|, |jobSkills|);

    var compatibilityScore := Round2(Compatibility(similarityScore, skillMatch));

    var level := LevelFromLabel(predictedLabel);

    var extractedPhone := ExtractPhone(resume.rawText);
    var extractedEmail := if resume.email == "" then ExtractEmail(resume.rawText) else resume.email;
    var extractedName := if resume.candidateName == "" then ExtractName(resume.rawText) else resume.candidateName;

    var suggestions := BuildSuggestions(missing, atsScore);

    result := AnalysisResult(
      resume.id, job.id, compatibilityScore, Round2(skillMatch), Round2(atsScore), level,
      extractedName, extractedEmail, extractedPhone, resumeSkills, matched, missing, suggestions);
  }

  /** `AnalyzeAsync`: it records the resume's skills on the resume (through
      `AddSkill`, category "auto") and the job's skills on the job (through
      `AddRequiredSkill`, category "required"), then returns the analysis. */
  method AnalyzeAsync(resume: Resume, job: JobDescription, similarityScore: real, predictedLabel: string)
    returns (result: AnalysisResult)
    modifies resume`skills, job`requiredSkills
    ensures result == Analysis(resume.id, resume.candidateName, resume.email, resume.rawText, resume.language,
                               job.id, job.descriptionText, job.language, similarityScore, predictedLabel)
    ensures |old(resume.skills)| <= |resume.skills| && resume.skills[..|old(resume.skills)|] == old(resume.skills)
    ensures Names(resume.skills) == MergeNames(Names(old(resume.skills)), SkillsOf(resume.rawText, resume.language))
    ensures forall k :: |old(resume.skills)| <= k < |resume.skills| ==>
              fresh(resume.skills[k]) && resume.skills[k].category == "auto" && resume.skills[k].weight == 1
    ensures old(resume.Valid()) ==> resume.Valid()
    ensures |old(job.requiredSkills)| <= |job.requiredSkills|
    ensures job.requiredSkills[..|old(job.requiredSkills)|] == old(job.requiredSkills)
    ensures Names(job.requiredSkills) == Names(old(job.requiredSkills)) + SkillsOf(job.descriptionText, job.language)
    ensures forall k :: |old(job.requiredSkills)| <= k < |job.requiredSkills| ==>
              fresh(job.requiredSkills[k]) && job.requiredSkills[k].category == "required" && job.requiredSkills[k].weight == 1
  {
    var resumeTokens := Preprocess(resume.rawText, resume.language);
    var jobTokens := Preprocess(job.descriptionText, job.language);

    var resumeSkills := ExtractSkills(resumeTokens);
    var jobSkills := ExtractSkills(jobTokens);

    RecordResumeSkills(resume, resumeSkills);
    RecordJobSkills(job, jobSkills);

    result := ScoreAndSuggest(resume, job, resumeSkills, jobSkills, similarityScore, predictedLabel);
  }
}
