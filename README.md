# AI Resume Analyzer — analysis engine

A Dafny model of the analysis engine of the AI Resume Analyzer backend. Each piece below is proved against its specification.

- **Token pipeline.** The NLP preprocessor lower-cases a text and turns punctuation into spaces. It then splits on spaces, drops stop words (English or French), strips one suffix and drops one-letter tokens.
- **Skill dictionary.** It keeps the tokens found in a fixed, case-insensitive vocabulary. Duplicates are removed and first-seen order is kept.
- **Analysis service.**
  - It splits the job's skills into those the resume matches and those it is missing.
  - It computes a skill-match percentage and a compatibility score.
  - It computes an ATS score from skill coverage, contact details, length and headings.
  - It maps the predicted label onto a candidate level.
  - It extracts phone, e-mail and name from the raw text with leftmost regex-style scanners.
  - It builds an ordered list of improvement suggestions.
  - It records the extracted skills on the resume and on the job.
- **Entities.** `Resume` de-duplicates its skills ignoring case. `JobDescription` appends its required skills unconditionally. `Skill`, `WorkExperience` and `Education` are small records with identity.
- **Fallback similarity.** Without a trained model, the ML service scores a resume against a job by cosine similarity over 0/1 word-presence vectors. It then applies the strict 0.7 / 0.5 / 0.3 level thresholds.

## Module layout

| module | file | models |
|---|---|---|
| `Strings` | strings.dfy | the .NET string operations the code relies on: invariant lower-casing, `Split` with empty entries removed, `Trim`, `StartsWith`/`EndsWith`, `Contains` ignoring case, `Distinct`, `string.Join` |
| `NlpPreprocessor` | nlp_preprocessor.dfy | stop-word sets, `Preprocess`, `Lemmatize` |
| `SkillDictionary` | skill_dictionary.dfy | the vocabulary and `ExtractSkills` |
| `SkillPipeline` | skill_pipeline.dfy | which vocabulary entries the preprocessor can ever deliver to the dictionary |
| `ContactExtraction` | contact_extraction.dfy | the phone and e-mail regular expressions as leftmost scanners; `ExtractPhone`, `ExtractEmail`, `ExtractName` |
| `Entities` | entities.dfy | `Resume`, `Skill`, `WorkExperience`, `Education` (Entities/Resume.cs, and the older duplicate in Class1.cs), `JobDescription` |
| `SkillMatching` | skill_matching.dfy | LINQ `Intersect` / `Except` under a case-insensitive comparer |
| `AtsScoring` | ats_scoring.dfy | `CalculateAtsScore`, the skill-match percentage, the compatibility score and two-decimal rounding |
| `ImprovementSuggestions` | improvement_suggestions.dfy | the suggestion list of `AnalyzeAsync` |
| `MLModelService` | ml_model_service.dfy | `MLModelService`: engine presence, `ScoreAndPredictAsync`, `CalculateCosineSimilarity` |
| `ResumeAnalyzerService` | resume_analyzer_service.dfy | `AnalyzeAsync` and the level `switch` |

The classes keep the source's form. `Resume`, `JobDescription` and `MLModelService` are Dafny classes whose methods update their fields in place. The list fields become `seq` fields that the methods reassign. `AnalyzeAsync` is a method: its two `foreach` loops are the methods `RecordResumeSkills` and `RecordJobSkills`, with their invariants. Its scoring steps are the method `ScoreAndSuggest`. `CalculateAtsScore` accumulates its score step by step, and `BuildSuggestions` grows the suggestion list in a loop. Each of these methods is proved equal to a pure specification function (`AtsScore`, `Suggestions`, `Analysis`), and the properties of those functions are proved as lemmas.

Two scalar representations are worth knowing:

- **Similarity in squared form.** The fallback similarity is kept as a `Similarity` value `Cosine(dot, norm1Sq, norm2Sq)`, whose square is `dot² / (norm1Sq · norm2Sq)`. No square root is needed. The thresholds are compared on squares too, and `ExceedsIsThreshold` proves that this decides the same thing as comparing the root.
- **Real arithmetic.** All other arithmetic is on Dafny `real`.

## Model

| member | source | states |
|---|---|---|
| Strings.Lower | src/Backend/AIResumeAnalyzer.Infrastructure/Nlp/NlpPreprocessor.cs:26 | lower-casing keeps the length, leaves no upper-case letter, changes exactly the upper-case letters and keeps each character a letter, number or white space as it was |
| Strings.Split | src/Backend/AIResumeAnalyzer.Infrastructure/Nlp/NlpPreprocessor.cs:29 | splitting with empty entries removed yields non-empty pieces made only of non-separator characters of the input |
| Strings.SplitLosesOnlySeparators | src/Backend/AIResumeAnalyzer.Infrastructure/Nlp/NlpPreprocessor.cs:29 | concatenating the pieces gives back the input with exactly its separators removed |
| Strings.SplitAtSeparator | src/Backend/AIResumeAnalyzer.Infrastructure/Nlp/NlpPreprocessor.cs:29 | a separator cuts the text in two: the pieces of `a + [c] + b` are the pieces of `a` followed by the pieces of `b` |
| Strings.Trim | src/Backend/AIResumeAnalyzer.Infrastructure/Services/ResumeAnalyzerService.cs:151 | the trimmed text is a slice of the input with no white space at either end, followed only by white space, and is empty exactly when the input is white space only |
| Strings.IndexOfIgnoreCase | src/Backend/AIResumeAnalyzer.Infrastructure/Services/ResumeAnalyzerService.cs:142 | a reported index is the leftmost case-insensitive occurrence at or after `from`, and no index is reported only when none exists |
| NlpPreprocessor.Clean | src/Backend/AIResumeAnalyzer.Infrastructure/Nlp/NlpPreprocessor.cs:26-27 | lower-casing and replacing every character outside letters, digits and white space keeps the length and leaves only spaces and token characters; each position holds the lower-cased character when it is a letter, digit or white space, and a space otherwise |
| NlpPreprocessor.Lemmatize | src/Backend/AIResumeAnalyzer.Infrastructure/Nlp/NlpPreprocessor.cs:44-54 | the lemma is a prefix of the token and at least 2 long when shortened; exactly 3 characters go when the `ing` rule applies, else exactly 2 when the `ed` rule applies, and the token comes back unchanged exactly when no rule applies |
| NlpPreprocessor.LemmaEndingInS | src/Backend/AIResumeAnalyzer.Infrastructure/Nlp/NlpPreprocessor.cs:46-51 | a lemma that ends in `s` and is longer than 3 came from the same word with `ing`, `ed` or `s` appended: one suffix is stripped, never more |
| NlpPreprocessor.Normalize | src/Backend/AIResumeAnalyzer.Infrastructure/Nlp/NlpPreprocessor.cs:35-39 | at most one token per piece, every token at least 2 long and the lemma of a piece that is not a stop word |
| NlpPreprocessor.NormalizeAppend | src/Backend/AIResumeAnalyzer.Infrastructure/Nlp/NlpPreprocessor.cs:35-39 | normalisation works piece by piece: it distributes over concatenation, so input order is kept |
| NlpPreprocessor.NormalizeOnePiece | src/Backend/AIResumeAnalyzer.Infrastructure/Nlp/NlpPreprocessor.cs:36-38 | a single piece is dropped when it is a stop word or its lemma is shorter than 2, and otherwise becomes its lemma |
| NlpPreprocessor.NormalizeKeepsTokenChars | src/Backend/AIResumeAnalyzer.Infrastructure/Nlp/NlpPreprocessor.cs:35-39 | lemmatising pieces made of token characters yields tokens made of token characters |
| NlpPreprocessor.Preprocess | src/Backend/AIResumeAnalyzer.Infrastructure/Nlp/NlpPreprocessor.cs:22-42 | white-space-only text gives no tokens, and every token is at least 2 long and made only of lower-case letters, digits and non-space white space |
| NlpPreprocessor.FrenchExactlyForFrTags | src/Backend/AIResumeAnalyzer.Infrastructure/Nlp/NlpPreprocessor.cs:31-33 | the French stop words are chosen exactly when the language tag starts with "fr" ignoring case; any other tag gets the English set |
| NlpPreprocessor.StopWordsTestedBeforeLemmatising | src/Backend/AIResumeAnalyzer.Infrastructure/Nlp/NlpPreprocessor.cs:35-39 | the stop-word test sees the piece before lemmatising: "ares" yields the token "are" although "are" is an English stop word |
| SkillDictionary.ExtractSkills | src/Backend/AIResumeAnalyzer.Infrastructure/Nlp/SkillDictionary.cs:23-31 | every skill is an input token in the vocabulary, no two skills are equal ignoring case, and every vocabulary token of the input is represented |
| SkillDictionary.FirstIndex | src/Backend/AIResumeAnalyzer.Infrastructure/Nlp/SkillDictionary.cs:27 | the index of the first token equal to a key ignoring case, or the length when there is none |
| SkillDictionary.ExtractSkillsFirstSeen | src/Backend/AIResumeAnalyzer.Infrastructure/Nlp/SkillDictionary.cs:25-28 | each skill is the first token of its case-insensitive class, and the skills appear in the order of those first occurrences |
| SkillDictionary.ExtractSkillsKeepsDistinctSkills | src/Backend/AIResumeAnalyzer.Infrastructure/Nlp/SkillDictionary.cs:25-28 | a list of vocabulary words already distinct ignoring case comes back unchanged, so empty input gives empty output |
| SkillDictionary.ExtractSkillsIdempotent | src/Backend/AIResumeAnalyzer.Infrastructure/Nlp/SkillDictionary.cs:23-31 | extracting from the extracted skills returns them unchanged |
| SkillPipeline.PunctuatedSkillsNeverExtracted | src/Backend/AIResumeAnalyzer.Infrastructure/Nlp/SkillDictionary.cs:16-19 | no skill found in preprocessed text contains `#` or `.`, so `c#`, `.net`, `asp.net`, `ml.net` and `node.js` are never extracted |
| SkillPipeline.PluralSkillsOnlyFromSuffixedPieces | src/Backend/AIResumeAnalyzer.Infrastructure/Nlp/SkillDictionary.cs:17-19 | `kubernetes`, `microservices` or `redis` is extracted only from a piece with `ing`, `ed` or `s` appended, because the word itself loses its final `s` |
| SkillPipeline.PluralWordAloneYieldsNoSkill | src/Backend/AIResumeAnalyzer.Infrastructure/Nlp/SkillDictionary.cs:17-19 | a text that is just `kubernetes`, `microservices` or `redis` yields no skill, since the word without its `s` is not in the vocabulary |
| SkillMatching.SelectByPresence | src/Backend/AIResumeAnalyzer.Infrastructure/Services/ResumeAnalyzerService.cs:42-43 | the LINQ set operation keeps exactly the job skills whose presence among the resume skills (ignoring case) is as asked, without case-insensitive duplicates |
| SkillMatching.SelectOfDistinctIsWhere | src/Backend/AIResumeAnalyzer.Infrastructure/Services/ResumeAnalyzerService.cs:42-43 | on a list without case-insensitive duplicates, the set operation is an order-keeping filter |
| SkillMatching.WherePartition | src/Backend/AIResumeAnalyzer.Infrastructure/Services/ResumeAnalyzerService.cs:42-43 | the two filters together are a permutation of their input |
| SkillMatching.MatchedMissingPartition | src/Backend/AIResumeAnalyzer.Infrastructure/Services/ResumeAnalyzerService.cs:42-43 | matched and missing partition the job skills in job order, every matched skill is a resume skill, and no missing skill is |
| AtsScoring.SkillMatchPercentage | src/Backend/AIResumeAnalyzer.Infrastructure/Services/ResumeAnalyzerService.cs:45-47 | 0 when the job has no skills, otherwise the share of matched skills times 100, in [0, 100] when no more are matched than listed |
| AtsScoring.Compatibility | src/Backend/AIResumeAnalyzer.Infrastructure/Services/ResumeAnalyzerService.cs:55-56 | for similarity in [0, 1] and skill match in [0, 100], the score is in [0, 100]; it is 100 and 0 at the extremes |
| AtsScoring.Round2 | src/Backend/AIResumeAnalyzer.Infrastructure/Services/ResumeAnalyzerService.cs:55-56 | rounding gives a whole number of hundredths within half a hundredth of the input, and an exact tie goes to the even hundredth |
| AtsScoring.Round2StaysInRange | src/Backend/AIResumeAnalyzer.Infrastructure/Services/ResumeAnalyzerService.cs:103-104 | rounding keeps a score in [0, 100] |
| AtsScoring.HeadingsFound | src/Backend/AIResumeAnalyzer.Infrastructure/Services/ResumeAnalyzerService.cs:141-142 | the count of headings the text contains ignoring case: it equals the number of headings exactly when all are found, and is 0 exactly when none is |
| AtsScoring.HeadingsFoundAppend | src/Backend/AIResumeAnalyzer.Infrastructure/Services/ResumeAnalyzerService.cs:141-142 | the count is additive: the headings found among `a + b` are those found among `a` plus those found among `b` |
| AtsScoring.HeadingsFoundOne | src/Backend/AIResumeAnalyzer.Infrastructure/Services/ResumeAnalyzerService.cs:141-142 | a single heading counts 1 when the text contains it ignoring case, and 0 otherwise |
| AtsScoring.CalculateAtsScore | src/Backend/AIResumeAnalyzer.Infrastructure/Services/ResumeAnalyzerService.cs:115-146 | the accumulated score is coverage plus contact plus length plus heading points, capped at 100 |
| AtsScoring.CoverageInBand | src/Backend/AIResumeAnalyzer.Infrastructure/Services/ResumeAnalyzerService.cs:120-127 | skill coverage lies in [0, 40] |
| AtsScoring.AtsScoreInRange | src/Backend/AIResumeAnalyzer.Infrastructure/Services/ResumeAnalyzerService.cs:115-146 | the ATS score lies in [0, 100] |
| AtsScoring.AtsScoreMonotoneInMatches | src/Backend/AIResumeAnalyzer.Infrastructure/Services/ResumeAnalyzerService.cs:120-123 | matching more job skills never lowers the ATS score |
| ContactExtraction.RunLength | src/Backend/AIResumeAnalyzer.Infrastructure/Services/ResumeAnalyzerService.cs:150 | a greedy character-class run: all its characters are in the class and the next one is not |
| ContactExtraction.PhoneMatchAt | src/Backend/AIResumeAnalyzer.Infrastructure/Services/ResumeAnalyzerService.cs:150 | a phone match at a position spans at least 10 characters within the text |
| ContactExtraction.EmailMatchAt | src/Backend/AIResumeAnalyzer.Infrastructure/Services/ResumeAnalyzerService.cs:156 | an e-mail match at a position spans at least 6 characters within the text |
| ContactExtraction.EmailTailFrom | src/Backend/AIResumeAnalyzer.Infrastructure/Services/ResumeAnalyzerService.cs:156 | the domain part, a dot and at least two letters, ends within the text |
| ContactExtraction.MatchAt | src/Backend/AIResumeAnalyzer.Infrastructure/Services/ResumeAnalyzerService.cs:150-157 | a match at a position is non-empty and ends within the text |
| ContactExtraction.FirstSome | src/Backend/AIResumeAnalyzer.Infrastructure/Services/ResumeAnalyzerService.cs:150-157 | the reported attempt succeeded, at or after the starting position |
| ContactExtraction.FirstSomeIsLeftmost | src/Backend/AIResumeAnalyzer.Infrastructure/Services/ResumeAnalyzerService.cs:150-157 | no attempt before the reported one succeeds, and none succeeds at all when nothing is reported |
| ContactExtraction.FirstMatch | src/Backend/AIResumeAnalyzer.Infrastructure/Services/ResumeAnalyzerService.cs:150-157 | a reported match is a real match of the pattern at its start, lying inside the text |
| ContactExtraction.FirstMatchIsLeftmost | src/Backend/AIResumeAnalyzer.Infrastructure/Services/ResumeAnalyzerService.cs:150-157 | the reported match is the leftmost one, and nothing is reported only when the pattern matches nowhere |
| ContactExtraction.ExtractPhone | src/Backend/AIResumeAnalyzer.Infrastructure/Services/ResumeAnalyzerService.cs:148-152 | the leftmost match of the phone pattern, trimmed; "" when nothing matches; it is a substring of the text made of `+`, digits, white space and `-`, with no white space at either end |
| ContactExtraction.PhoneMatchChars | src/Backend/AIResumeAnalyzer.Infrastructure/Services/ResumeAnalyzerService.cs:150 | a phone match consists only of `+`, digits, white space and `-` |
| ContactExtraction.WhitespaceCountsAsPhone | src/Backend/AIResumeAnalyzer.Infrastructure/Services/ResumeAnalyzerService.cs:132 | ten spaces satisfy the phone pattern, so they earn the 6 ATS points, yet the extracted phone is "" |
| ContactExtraction.ExtractEmail | src/Backend/AIResumeAnalyzer.Infrastructure/Services/ResumeAnalyzerService.cs:154-158 | "" exactly when the pattern matches nowhere; otherwise the leftmost match itself, a substring of the text that contains `@` and ends in an ASCII letter |
| ContactExtraction.EmailMatchShape | src/Backend/AIResumeAnalyzer.Infrastructure/Services/ResumeAnalyzerService.cs:156 | every e-mail match contains `@` and ends in an ASCII letter |
| ContactExtraction.ExtractName | src/Backend/AIResumeAnalyzer.Infrastructure/Services/ResumeAnalyzerService.cs:160-165 | the name is a substring of the text without line breaks and without white space at either end |
| ContactExtraction.FirstLineIsName | src/Backend/AIResumeAnalyzer.Infrastructure/Services/ResumeAnalyzerService.cs:163-164 | for text whose first line is non-empty and ended by `\r` or `\n`, the name is that line trimmed |
| ContactExtraction.LeadingBreaksSkipped | src/Backend/AIResumeAnalyzer.Infrastructure/Services/ResumeAnalyzerService.cs:163-164 | line breaks in front of the text do not change the name: empty lines are skipped |
| ContactExtraction.OnlyBreaksGiveNoName | src/Backend/AIResumeAnalyzer.Infrastructure/Services/ResumeAnalyzerService.cs:163-164 | a text made only of line breaks, the empty text included, has no lines and gives "" |
| ContactExtraction.SingleLineIsName | src/Backend/AIResumeAnalyzer.Infrastructure/Services/ResumeAnalyzerService.cs:163-164 | a text without line breaks is named by itself, trimmed |
| ContactExtraction.BlankFirstLineGivesNoName | src/Backend/AIResumeAnalyzer.Infrastructure/Services/ResumeAnalyzerService.cs:163-164 | a first line of blanks is still the first line: "   \nJane" gives "" although a later line holds a name |
| ImprovementSuggestions.BuildSuggestions | src/Backend/AIResumeAnalyzer.Infrastructure/Services/ResumeAnalyzerService.cs:71-97 | the list grown by the loop is the specified suggestion list |
| ImprovementSuggestions.SuggestionCount | src/Backend/AIResumeAnalyzer.Infrastructure/Services/ResumeAnalyzerService.cs:71-97 | the count is 1 + min(2, missing) when skills are missing, plus 1 when the ATS score is below 70 |
| ImprovementSuggestions.SuggestionOrder | src/Backend/AIResumeAnalyzer.Infrastructure/Services/ResumeAnalyzerService.cs:72-97 | a "Skills" item comes first exactly when skills are missing; the first two missing skills follow as "Experience" items in order; an "ATS Optimization" item is present exactly when the score is below 70, and it comes last |
| ImprovementSuggestions.SkillsSuggestionNamesEveryMissingSkill | src/Backend/AIResumeAnalyzer.Infrastructure/Services/ResumeAnalyzerService.cs:77 | the "Skills" text names every missing skill, not just the first few |
| MLModelService.LevelFor | src/Backend/AIResumeAnalyzer.Infrastructure/ML/MLModelService.cs:38 | Senior above 0.7, Mid in (0.5, 0.7], Junior in (0.3, 0.5], Reject at 0.3 or below: the thresholds are strict |
| MLModelService.WordBag | src/Backend/AIResumeAnalyzer.Infrastructure/ML/MLModelService.cs:54-55 | the bag holds exactly the distinct words of the lower-cased text split on spaces: non-empty, without spaces |
| MLModelService.BagCounts | src/Backend/AIResumeAnalyzer.Infrastructure/ML/MLModelService.cs:57-63 | over their union, the dot product counts the words two bags share, and each squared magnitude is that bag's size |
| MLModelService.CosineCounts | src/Backend/AIResumeAnalyzer.Infrastructure/ML/MLModelService.cs:52-66 | the similarity of two texts is shared distinct words over the root of the product of the two distinct-word counts |
| MLModelService.CosineInUnitRange | src/Backend/AIResumeAnalyzer.Infrastructure/ML/MLModelService.cs:52-66 | the similarity lies in [0, 1] |
| MLModelService.CosineSymmetric | src/Backend/AIResumeAnalyzer.Infrastructure/ML/MLModelService.cs:52-66 | the similarity does not depend on the order of the two texts |
| MLModelService.CosineOfEmptyBagIsZero | src/Backend/AIResumeAnalyzer.Infrastructure/ML/MLModelService.cs:65 | a text without words has similarity 0 with anything |
| MLModelService.CosineOfSameBagIsOne | src/Backend/AIResumeAnalyzer.Infrastructure/ML/MLModelService.cs:52-66 | two texts with the same non-empty word bag have similarity 1 |
| MLModelService.ExceedsIsThreshold | src/Backend/AIResumeAnalyzer.Infrastructure/ML/MLModelService.cs:38 | comparing squares decides the strict threshold test on the root |
| MLModelService.FallbackLevelMatchesThresholds | src/Backend/AIResumeAnalyzer.Infrastructure/ML/MLModelService.cs:37-38 | the fallback level is the one the thresholds give to the similarity value |
| MLModelService.FallbackValueInUnitRange | src/Backend/AIResumeAnalyzer.Infrastructure/ML/MLModelService.cs:37 | the reported similarity value, the root of the squared form, is at most 1 |
| MLModelService.MLModelService.constructor | src/Backend/AIResumeAnalyzer.Infrastructure/ML/MLModelService.cs:13-27 | an engine is present exactly when the model file existed at construction |
| MLModelService.MLModelService.ScoreAndPredict | src/Backend/AIResumeAnalyzer.Infrastructure/ML/MLModelService.cs:29-50 | the fallback runs exactly when there is no engine and labels its cosine similarity by the thresholds; otherwise the engine's similarity and label pass through unchanged |
| Entities.Skill.constructor | src/Backend/AIResumeAnalyzer.Domain/Entities/Resume.cs:89-95 | the skill stores its name, category and weight, and the weight defaults to 1 |
| Entities.HasNameIsKeyMembership | src/Backend/AIResumeAnalyzer.Domain/Entities/Resume.cs:45 | an existing name equal ignoring case means the same lower-cased key is present |
| Entities.NamesWithSkill | src/Backend/AIResumeAnalyzer.Domain/Entities/Resume.cs:43-49 | adding a skill changes the name list exactly as adding its name does |
| Entities.WithSkillKeepsNamesDistinct | src/Backend/AIResumeAnalyzer.Domain/Class1.cs:35-41 | adding a clashing name changes nothing; otherwise the skill is appended last and earlier ones are kept; names stay distinct ignoring case |
| Entities.WithNameKeepsDistinct | src/Backend/AIResumeAnalyzer.Domain/Entities/Resume.cs:43-49 | on names: a clash leaves the list unchanged, otherwise the name is appended; the list stays distinct ignoring case and holds the name afterwards |
| Entities.MergeNamesKeepsDistinct | src/Backend/AIResumeAnalyzer.Infrastructure/Services/ResumeAnalyzerService.cs:36-37 | repeated adds keep the old names as a prefix, stay distinct ignoring case and hold every added name |
| Entities.MergeNamesOfNewNames | src/Backend/AIResumeAnalyzer.Infrastructure/Services/ResumeAnalyzerService.cs:36-37 | adding names that are new and distinct ignoring case appends them all in order |
| Entities.Resume.constructor | src/Backend/AIResumeAnalyzer.Domain/Entities/Resume.cs:34-41 | the resume stores its inputs, every other text field is "", all lists are empty, and the invariant holds |
| Entities.Resume.AddSkill | src/Backend/AIResumeAnalyzer.Domain/Entities/Resume.cs:43-49 | the skills become the old skills with the new one appended unless its name clashes ignoring case; the invariant is kept and nothing else changes |
| Entities.Resume.AddWorkExperience | src/Backend/AIResumeAnalyzer.Domain/Entities/Resume.cs:51 | appends the experience unconditionally and changes nothing else |
| Entities.Resume.AddEducation | src/Backend/AIResumeAnalyzer.Domain/Entities/Resume.cs:52 | appends the entry unconditionally and changes nothing else |
| Entities.WorkExperience.constructor | src/Backend/AIResumeAnalyzer.Domain/Entities/Resume.cs:55-66 | stores the identity, and every text field is "" |
| Entities.Education.constructor | src/Backend/AIResumeAnalyzer.Domain/Entities/Resume.cs:68-78 | stores the identity, and every text field is "" |
| Entities.JobDescription.constructor | src/Backend/AIResumeAnalyzer.Domain/Entities/JobDescription.cs:22-28 | the job stores its inputs and has no required skills |
| Entities.JobDescription.AddRequiredSkill | src/Backend/AIResumeAnalyzer.Domain/Entities/JobDescription.cs:30 | appends the skill unconditionally, duplicates included, and changes nothing else |
| ResumeAnalyzerService.LevelFromLabel | src/Backend/AIResumeAnalyzer.Infrastructure/Services/ResumeAnalyzerService.cs:58-64 | exactly "Junior", "Mid" and "Senior" give the same-named level, and every other label gives Reject |
| ResumeAnalyzerService.FallbackLabelsMapOntoLevels | src/Backend/AIResumeAnalyzer.Infrastructure/Services/ResumeAnalyzerService.cs:58-64 | every label the fallback produces maps to the level of the same threshold band |
| ResumeAnalyzerService.FallbackLevelFollowsThresholds | src/Backend/AIResumeAnalyzer.Infrastructure/ML/MLModelService.cs:35-39 | on the fallback path the candidate level follows the strict thresholds on the reported similarity |
| ResumeAnalyzerService.AnalysisScoresInRange | src/Backend/AIResumeAnalyzer.Infrastructure/Services/ResumeAnalyzerService.cs:45-56 | with a similarity in [0, 1], the compatibility, skill-match and ATS scores all lie in [0, 100] |
| ResumeAnalyzerService.AnalysisContactDetails | src/Backend/AIResumeAnalyzer.Infrastructure/Services/ResumeAnalyzerService.cs:67-69 | a non-empty e-mail or name from the caller is kept; a missing one is `ExtractEmail` or `ExtractName` of the raw text (an e-mail with `@`, a name without line breaks); the phone is `ExtractPhone` of the raw text |
| ResumeAnalyzerService.FallbackAnalysisInRange | src/Backend/AIResumeAnalyzer.Infrastructure/Services/ResumeAnalyzerService.cs:52-64 | on the fallback path the compatibility lies in [0, 100] and the level follows the thresholds |
| ResumeAnalyzerService.RecordResumeSkills | src/Backend/AIResumeAnalyzer.Infrastructure/Services/ResumeAnalyzerService.cs:36-37 | the resume's skill names become the old names merged with the new ones ignoring case; old skills stay in front; each new skill has category "auto" and weight 1; the invariant holds |
| ResumeAnalyzerService.RecordJobSkills | src/Backend/AIResumeAnalyzer.Infrastructure/Services/ResumeAnalyzerService.cs:39-40 | the job gains every job skill in order, category "required", with old skills in front |
| ResumeAnalyzerService.ScoreAndSuggest | src/Backend/AIResumeAnalyzer.Infrastructure/Services/ResumeAnalyzerService.cs:42-112 | the scores, level, contact details and suggestions are those of the specified analysis |
| ResumeAnalyzerService.AnalyzeAsync | src/Backend/AIResumeAnalyzer.Infrastructure/Services/ResumeAnalyzerService.cs:25-113 | the result is the specified analysis of the resume and job; the resume and job gain their extracted skills as above |

## Left out

- Characters: invariant lower-casing, `\p{L}`, `\p{N}` and `\s` are modelled exactly for Latin-1. Every other character counts as a non-letter that has no case.
- Null strings: the model has none, so `string.IsNullOrWhiteSpace` and `string.IsNullOrEmpty` only see the empty or white-space-only cases.
- Floating point: `double` and `float` become exact `real`. `Math.Round(x, 2)` is banker's rounding on reals (`AtsScoring.Round2`).
- MLModelService.CosineSimilarity: `Math.Sqrt` is not modelled. The similarity is kept in squared form, and callers pass the reported value `s` together with the fact that `s * s` equals the square.
- Identities and the clock: `Guid.NewGuid()` becomes a constructor parameter for resumes, jobs, experiences and education entries. A skill's identity is its object identity. `CreatedAtUtc` is not modelled.
- `EndsWith` in `Lemmatize` is culture-sensitive in .NET. It is modelled as ordinal, which agrees on the lower-cased token characters the pipeline produces.
- The trained model: the engine is a function parameter of the constructor. `Lazy` loading, `File.Exists`, configuration lookup and the output `Score` array are not modelled.
- ResumeAnalyzerService.AnalyzeAsync: `async`/`await` and cancellation are not modelled. The similarity and label from `IMLModelService` become parameters, and `MLModelService.ScoreAndPredict` relates them to the fallback.
- AtsScoring.CalculateAtsScore: the `skills` argument is taken, but unused as in the source.
- Class1.cs declares a second `Resume` and `Skill` in the same namespace. Its `AddSkill` and `Skill` constructor are the same code, modelled once by `Entities.Resume` and `Entities.Skill`. Its resume lacks the experience, education and contact fields.
- Suggestions: the "Skills" item lists every missing skill (`string.Join` over all of them), as the code does; the model follows the code rather than a five-skill limit.
- The vocabulary entries `kubernetes`, `microservices` and `redis` end in `s` and are longer than 3, so the lemmatiser strips that `s` when one of them is written plainly; `aws` is short enough to keep it. They are extracted only from pieces such as `kubernetesing` or `rediss` that lemmatise to them. `SkillPipeline.PluralSkillsOnlyFromSuffixedPieces` states the exact condition.
- The result record: `AnalysisResult.cs` declares a seven-field record, but `AnalyzeAsync` constructs one with thirteen values. The model's `AnalysisResult` has the thirteen fields the service computes.
- The regex engine is not modelled in general. The two patterns are written out as scanners: leftmost start, greedy character-class runs, and the domain part giving back characters one at a time as backtracking does. Regex timeouts and culture options are not modelled.
- Persistence (EF Core, repositories), the HTTP controllers, the command handler, document parsing (PDF/Word), dependency injection, the training program and the frontend are not part of this model.
