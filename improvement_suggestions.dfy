/** The improvement suggestions of the analysis engine. */
module ImprovementSuggestions {
  import opened Strings

  function Min(a: int, b: int): int {
    if a < b then a else b
  }

  /** `Suggestion(Section, OriginalText, SuggestedText, Reason)`. */
  datatype Suggestion = Suggestion(section: string, originalText: string, suggestedText: string, reason: string)

  // The fixed texts of the three kinds of suggestion.
  const SkillsOriginal := "Existing skills list"
  const SkillsPrefix := "Add the following skills: "
  const SkillsReason := "These skills are required or preferred in the job description but missing from your resume."
  const ExperienceOriginal := "[Placeholder for experience context]"
  const ExperiencePrefix := "Mention your experience with "
  const ExperienceSuffix := " in a recent project."
  const HighlightPrefix := "Highlighting "
  const HighlightSuffix := " in your experience section will significantly improve your match score."
  const AtsOriginal := "Resume Structure"
  const AtsText := "Improve resume formatting and contact information."
  const AtsReason := "Your ATS score is low. Ensure you have clear headings, standard fonts, and all contact details (Phone, Email, LinkedIn)."

  function SkillsSuggestion(missing: seq<string>): Suggestion {
    Suggestion("Skills", SkillsOriginal, SkillsPrefix + Join(", ", missing), SkillsReason)
  }

  function ExperienceSuggestion(skill: string): Suggestion {
    Suggestion(
      "Experience",
      ExperienceOriginal,
      ExperiencePrefix + skill + ExperienceSuffix,
      HighlightPrefix + skill + HighlightSuffix)
  }

  const AtsSuggestion: Suggestion := Suggestion("ATS Optimization", AtsOriginal, AtsText, AtsReason)

  function ExperienceSuggestions(skills: seq<string>): seq<Suggestion> {
    seq(|skills|, k requires 0 <= k < |skills| => ExperienceSuggestion(skills[k]))
  }

  /** The suggestion list: when skills are missing, one item listing them
      all and one item for each of the first two; then one ATS item when
      the ATS score is below 70. */
  function Suggestions(missing: seq<string>, atsScore: real): seq<Suggestion> {
    (if missing == [] then []
     else [SkillsSuggestion(missing)] + ExperienceSuggestions(missing[..Min(2, |missing|)]))
    + (if atsScore < 70.0 then [AtsSuggestion] else [])
  }

  /** The suggestion count can be stated exactly. */
  lemma SuggestionCount(missing: seq<string>, atsScore: real)
    ensures |Suggestions(missing, atsScore)| ==
              (if missing == [] then 0 else 1 + Min(2, |missing|)) + (if atsScore < 70.0 then 1 else 0)
  {
  }

  /** The sections come in a fixed order: "Skills" first when skills are
      missing, then "Experience" items, then "ATS Optimization" last, which
      is there exactly when the ATS score is below 70. */
  lemma SuggestionOrder(missing: seq<string>, atsScore: real)
    ensures missing != [] <==> Suggestions(missing, atsScore) != [] && Suggestions(missing, atsScore)[0].section == "Skills"
    ensures (exists s <- Suggestions(missing, atsScore) :: s.section == "ATS Optimization") <==> atsScore < 70.0
    ensures atsScore < 70.0 ==> Suggestions(missing, atsScore)[|Suggestions(missing, atsScore)| - 1] == AtsSuggestion
    ensures forall k :: 0 <= k < |missing| && k < 2 ==> Suggestions(missing, atsScore)[k + 1] == ExperienceSuggestion(missing[k])
  {
    var head := if missing == [] then [] else [SkillsSuggestion(missing)] + ExperienceSuggestions(missing[..Min(2, |missing|)]);
    var all := Suggestions(missing, atsScore);
    assert forall s <- head :: s.section != "ATS Optimization";
    if atsScore < 70.0 {
      assert all[|all| - 1] == AtsSuggestion;
    }
    if missing == [] && all != [] {
      assert all[0] == AtsSuggestion;
    }
  }

  /** The "Skills" item names every missing skill in its suggested text. */
  lemma SkillsSuggestionNamesEveryMissingSkill(missing: seq<string>, k: nat)
    requires k < |missing|
    ensures exists off :: OccursAt(SkillsSuggestion(missing).suggestedText, missing[k], off)
  {
    JoinContainsItems(", ", missing, k);
    var prefix := SkillsPrefix;
    var joined := Join(", ", missing);
    var off: nat :| OccursAt(joined, missing[k], off);
    var text := prefix + joined;
    assert OccursAt(text, joined, |prefix|) by {
      assert text[|prefix|..|prefix| + |joined|] == joined;
    }
    OccursWithin(text, joined, missing[k], |prefix|, off);
    assert text == SkillsSuggestion(missing).suggestedText;
  }

  /** The suggestion list, built item by item. */
  method BuildSuggestions(missing: seq<string>, atsScore: real) returns (suggestions: seq<Suggestion>)
    ensures suggestions == Suggestions(missing, atsScore)
  {
    suggestions := [];
    if |missing| > 0 {
      suggestions := suggestions + [SkillsSuggestion(missing)];
      var firstTwo := missing[..Min(2, |missing|)];
      for k := 0 to |firstTwo|
        invariant suggestions == [SkillsSuggestion(missing)] + ExperienceSuggestions(firstTwo[..k])
      {
        suggestions := suggestions + [ExperienceSuggestion(firstTwo[k])];
      }
      assert firstTwo[..|firstTwo|] == firstTwo;
    }
    if atsScore < 70.0 {
      suggestions := suggestions + [AtsSuggestion];
    }
  }
}
