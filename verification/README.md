# College career seeker: the recommendation engine in Dafny

This project models the career recommender of a small web application for
students. A student fills in a profile: a GPA on the 4.0 scale, skills,
interests and academic subjects picked from fixed lists, and personal
values. The engine scores every career of a fixed ten-career catalog
against that profile and ranks the catalog by score. It also derives a
category analysis and a handful of insights from the ranked list. The
result pages then render:

- a card per career, with a score colour, the salary range converted from
  US dollars to rupees, and a rank badge;
- a skill-gap panel;
- a pie chart of the category scores.

The modules follow the program:

| module | file | models |
|---|---|---|
| `JsMath` | js_math.dfy | `Math.round` and the `Math.max(n, 1)` guard |
| `Text` | text.dfy | lower-casing, `includes`, `join`, `slice`, `filter`, `new Set`, decimal printing |
| `StableSort` | stable_sort.dfy | the stable descending sort of `Array.prototype.sort` with a numeric comparator |
| `CareerData` | career_data.dfy | the career catalog and the three vocabularies of the form |
| `Compatibility` | compatibility.dfy | `calculateCompatibility` |
| `Ranking` | ranking.dfy | `getCareerRecommendations` |
| `Categories` | categories.dfy | `getCareerCategoryAnalysis` |
| `Insights` | insights.dfy | `generateCareerInsights` |
| `ProfileForm` | profile_form.dfy | the four checkbox toggles and `handleSubmit` |
| `CareerCard` | career_card.dfy | `getScoreColor`, `convertToRupees` and the rank badge |
| `SkillGap` | skill_gap.dfy | the skill-gap panel |
| `CategoryChart` | category_chart.dfy | the category pie chart |
| `CatalogFacts` | catalog_facts.dfy | facts about the fixed catalog and vocabularies |
| `SalaryExample` | salary_example.dfy | `convertToRupees` on the catalog's salary format, worked through |
| `WorkedExample` | worked_example.dfy | one sample profile scored, ranked and charted against the software engineer and the HR specialist |

Modelling decisions:

- **Scores.** JavaScript numbers are modelled as mathematical reals, so
  scores are `real` and carry no rounding error. `Math.round(x)` is
  `floor(x + 0.5)`, which is what JavaScript computes (halves round
  towards +∞).
- **Sorting.** JavaScript's sort is stable. It is modelled as a
  functional insertion sort. The sort is specified as "sorted, highest
  first" plus "stable": for each key, the elements with that key keep
  their input order. A uniqueness lemma shows these two properties fix
  the output completely.
- **Strings.** Strings are sequences of characters. `toLowerCase` maps
  only the ASCII letters A–Z; every term in the catalog and the
  vocabularies is ASCII.
- **The subject weight.** The scorer's comment calls the academic-subject
  part "20% of score", but the formula multiplies by 10. The model follows
  the code, so the best possible score is 40 + 30 + 10 + 10 = 90, not 100.
- **Growth outlook.** The fallback uses `||`, so an empty-string outlook
  falls back to "Moderate" just like a missing first career. The model
  follows this.
- **Salary conversion.** `convertToRupees` finds every match of
  `/\$([0-9,]+)/g`. It replaces the matches one after another with
  `String.replace`, each replacing the first occurrence of its match
  text. The model scans the string once, left to right, into plain
  characters and maximal amounts, then writes each amount in converted
  form. The two agree:
  - every converted text starts with "₹" and holds no "$";
  - so when the k-th match is replaced, its first occurrence in the
    partly converted string is the k-th amount itself.

  This equivalence is argued here, not proved in Dafny.
- **NaN.** A match made only of commas parses to `NaN` and becomes "₹NaN".

## Model

| member | source | states |
|---|---|---|
| JsMath.Round | src/lib/recommendationEngine.ts:83 | The rounded value is the integer within half a unit of the input (above `x - 0.5`, at most `x + 0.5`). |
| JsMath.RoundWithin | src/lib/recommendationEngine.ts:117 | Rounding a value between two integers gives an integer between them. |
| JsMath.RoundOfInt | src/lib/recommendationEngine.ts:83 | Rounding leaves an integer unchanged. |
| JsMath.AtLeastOne | src/lib/recommendationEngine.ts:28 | `Math.max(n, 1)` is at least 1 and at least n, and is n whenever n is positive. |
| Text.LowerChar | src/lib/recommendationEngine.ts:23 | An upper-case ASCII letter maps to the lower-case letter 32 code points higher; every other character is left alone. |
| Text.Lower | src/lib/recommendationEngine.ts:23 | Lower-casing keeps the length and lower-cases each character in place. |
| Text.LowerIdempotent | src/lib/recommendationEngine.ts:23-24 | Lower-casing twice is the same as lower-casing once. |
| Text.ContainsIffSubstring | src/lib/recommendationEngine.ts:23-24 | The position-by-position search `includes` is true exactly when the needle occurs as a contiguous slice at some index (both directions). |
| Text.Contains | src/lib/recommendationEngine.ts:23-24 | When `includes` holds, the needle is no longer than the haystack and each of its characters occurs in the haystack. |
| Text.NotContainsMissingChar | src/lib/recommendationEngine.ts:23-24 | A needle holding a character the haystack lacks is never found. |
| Text.NotContainsLoneChar | src/lib/recommendationEngine.ts:106-108 | A needle whose first character occurs only once in the haystack, and there not followed by the needle's second character, is never found. |
| Text.ContainsSelf | src/lib/recommendationEngine.ts:23-24 | Every string contains itself and the empty string. |
| Text.Join | src/lib/recommendationEngine.ts:32 | Joining no parts gives the empty string; joining one part gives that part. |
| Text.JoinSnoc | src/lib/recommendationEngine.ts:32 | Joining one more part appends the separator and that part, so `join` lists the parts in order, separated by the separator. |
| Text.JoinLength | src/lib/recommendationEngine.ts:32 | A join is as long as all its parts plus one separator between each two neighbours. |
| Text.Take | src/lib/recommendationEngine.ts:141 | `slice(0, n)` is a prefix of the input, of length n or the whole input if shorter. |
| Text.Filter | src/lib/recommendationEngine.ts:21-26 | The filtered list holds exactly the elements of the input that pass the test, and is no longer than the input. |
| Text.FilterKeepsAll | src/lib/recommendationEngine.ts:21-26 | A test every element passes keeps the whole list. |
| Text.FilterDropsAll | src/lib/recommendationEngine.ts:21-26 | A test no element passes keeps nothing. |
| Text.FilterAppend | src/lib/recommendationEngine.ts:21-26 | Filtering a concatenation filters each part, so kept elements keep their relative order. |
| Text.Dedup | src/lib/recommendationEngine.ts:143 | `[...new Set(s)]` has exactly the members of s and is no longer than s. |
| Text.DedupSpec | src/lib/recommendationEngine.ts:143 | `[...new Set(s)]` has the same members as s, holds each once, and lists them in order of first occurrence in s. |
| Text.DecimalDigits | src/components/CareerCard.tsx:36 | A natural number prints as at least one decimal digit, with no leading zero unless it is 0. |
| Text.DigitsRoundTrip | src/components/CareerCard.tsx:33-36 | Reading back the printed digits of n gives n. |
| Text.CanonicalRoundTrip | src/components/CareerCard.tsx:33-36 | Printing the value of a digit string with no leading zero gives the same string back. |
| Text.IntToString | src/components/CareerCard.tsx:50 | An integer prints as its decimal digits, with a leading '-' for a negative one. |
| StableSort.WithKey | src/lib/recommendationEngine.ts:89 | The elements with a given key are exactly the input elements carrying that key. |
| StableSort.InsertSorted | src/lib/recommendationEngine.ts:89 | Inserting into a list sorted highest first keeps it sorted and adds exactly one copy of the element. |
| StableSort.InsertWithKey | src/lib/recommendationEngine.ts:89 | Inserting puts the new element first among the elements with its key, and leaves the other keys' elements untouched. |
| StableSort.SortDesc | src/lib/recommendationEngine.ts:89 | The sort output is a permutation of the input, sorted by key highest first, and stable: for each key, the elements keep their input order. |
| StableSort.StableSortUnique | src/lib/recommendationEngine.ts:89 | Two lists that are both sorted highest first and agree, key by key, on the order of their elements are equal. |
| StableSort.SortDescSortedIsIdentity | src/lib/recommendationEngine.ts:89 | Sorting an already sorted list changes nothing. |
| StableSort.WithKeyKeepsOrder | src/lib/recommendationEngine.ts:89 | Two elements with the same key are in the same order in the input as in that key's sub-list. |
| StableSort.StableTiesKeepOrder | src/lib/recommendationEngine.ts:89 | In a stable sort of a duplicate-free input, any two output elements with equal keys appear in their input order. |
| Compatibility.TermsMatch | src/lib/recommendationEngine.ts:22-25 | Two terms match exactly when one, lower-cased, occurs as a contiguous slice of the other, lower-cased. |
| Compatibility.MatchesSome | src/lib/recommendationEngine.ts:22-25 | A profile term matches the career's list exactly when some career term matches it. |
| Compatibility.Matches | src/lib/recommendationEngine.ts:21-26 | The matched terms are exactly the profile terms that match some career term, and there are no more of them than profile terms. |
| Compatibility.Share | src/lib/recommendationEngine.ts:28 | A part's share lies between 0 and its weight. It is 0 with no match and the full weight when every (non-empty) term matches. |
| Compatibility.Listed | src/lib/recommendationEngine.ts:32 | The listing joins all matches when there are at most three. Otherwise it joins the first three, adding ", etc." only where the template asks for it. |
| Compatibility.SkillsReason | src/lib/recommendationEngine.ts:31-33 | The skills sentence is "Your skills in ", the listing of the matches, then " align with this career.". |
| Compatibility.InterestsReason | src/lib/recommendationEngine.ts:45-47 | The interests sentence is "Your interests in ", the listing of the matches, then " match well with this career.". |
| Compatibility.SubjectsReason | src/lib/recommendationEngine.ts:59-61 | The subjects sentence is "Your academic background in ", the listing of at most three matches (never ", etc."), then " is beneficial for this role.". |
| Compatibility.ReasonTemplatesDiffer | src/lib/recommendationEngine.ts:31-71 | The five sentence templates differ: the three match templates at a fixed character after their openings or before their ends, whatever terms they list, and the two GPA sentences by length. |
| Compatibility.ReasonSentencesDiffer | src/lib/recommendationEngine.ts:31-71 | Sentences of different kinds are never equal. |
| Compatibility.Reasons | src/lib/recommendationEngine.ts:31-71 | There are between one and four reasons. |
| Compatibility.CalculateCompatibility | src/lib/recommendationEngine.ts:13-74 | The raw score lies between 0 and 90. It is at least 10 when the GPA meets the career's minimum and at most 80 when it does not. There are one to four reasons. |
| Compatibility.TermsMatchSymmetricReflexive | src/lib/recommendationEngine.ts:22-25 | The match test is symmetric, and every term matches itself. |
| Compatibility.TermsMatchIgnoresCase | src/lib/recommendationEngine.ts:23-24 | Lower-casing either term beforehand does not change whether they match. |
| Compatibility.ReasonsInOrder | src/lib/recommendationEngine.ts:31-71 | The reasons run skills, interests, subjects, GPA. A match sentence is there exactly when its list is non-empty, and the GPA sentence (met or not met) is always last. |
| Compatibility.ReasonsPresent | src/lib/recommendationEngine.ts:31-62 | Each match sentence is among the reasons if and only if its match list is non-empty. |
| Compatibility.SkillPartMonotone | src/lib/recommendationEngine.ts:21-28 | Adding a skill that matches never lowers the skills share; adding one that matches nothing never raises it. |
| Compatibility.AddingSkillMonotone | src/lib/recommendationEngine.ts:21-29 | Selecting one more skill never lowers the score if it matches a career skill, and never raises it if it does not. |
| Compatibility.EmptyProfileScoresOnlyGpa | src/lib/recommendationEngine.ts:28-71 | With no skills, interests or subjects, the `Math.max` guard gives zero parts. The score is just the GPA bonus and the only reason is the GPA sentence. |
| Compatibility.FullMatchScoresMaximum | src/lib/recommendationEngine.ts:13-74 | When every selected term matches and the GPA is met, the score is the maximum, 90. |
| Compatibility.NoMatchScoresGpaOnly | src/lib/recommendationEngine.ts:13-74 | When no selected term matches, the score is the GPA bonus (or 0 below the minimum) and the only reason is the GPA sentence. |
| Compatibility.LowerAll | src/lib/recommendationEngine.ts:23-24 | Every term is lower-cased in place. |
| Compatibility.MatchCountIgnoresCase | src/lib/recommendationEngine.ts:21-26 | Lower-casing the profile terms leaves the number of matches unchanged. |
| Compatibility.ScoreIgnoresCase | src/lib/recommendationEngine.ts:13-74 | Lower-casing every selected term leaves the score unchanged. |
| Ranking.Recommend | src/lib/recommendationEngine.ts:79-86 | An entry keeps its career and reasons. Its score is the raw score rounded to within half a unit, so it lies between 0 and 90. |
| Ranking.RecommendInjective | src/lib/recommendationEngine.ts:79-86 | Two entries for the same profile are equal exactly when their careers are. |
| Ranking.ScoreAll | src/lib/recommendationEngine.ts:79-86 | The mapped list has one entry per catalog career, in catalog order. |
| Ranking.ScoreAllCounts | src/lib/recommendationEngine.ts:79-86 | Each career's entry occurs as often as the career occurs in the catalog. |
| Ranking.ScoreAllPositions | src/lib/recommendationEngine.ts:79-86 | In a duplicate-free catalog, each career's entry sits at the career's catalog position. |
| Ranking.ScoreAllNoDup | src/lib/recommendationEngine.ts:79-86 | A duplicate-free catalog gives a duplicate-free list of entries. |
| Ranking.PermutedEntries | src/lib/recommendationEngine.ts:79-89 | Any permutation of the entries holds each catalog career exactly as often as the catalog does, each scored for the profile. |
| Ranking.SortedHeadIsBest | src/lib/recommendationEngine.ts:89 | The head of a sorted permutation has the best score in the catalog. |
| Ranking.Rank | src/lib/recommendationEngine.ts:77-90 | The ranking is a permutation of the scored catalog, sorted highest first, with ties in catalog order. Every score is in 0..90 and the head carries the best score. |
| Ranking.RankIsTheOnlyStableOrder | src/lib/recommendationEngine.ts:89 | Any order that is sorted by score and keeps ties in catalog order is the ranking. |
| Ranking.RankTiesKeepCatalogOrder | src/lib/recommendationEngine.ts:89 | Careers with equal rounded scores appear in catalog order. |
| Ranking.GetCareerRecommendations | src/lib/recommendationEngine.ts:77-90 | All ten catalog careers appear, scored for the profile and sorted by score, highest first. |
| Categories.TaxonomyNamesDistinct | src/lib/recommendationEngine.ts:95-101 | The five category names are pairwise different. |
| Categories.MentionsSome | src/lib/recommendationEngine.ts:106-108 | A title mentions a category exactly when some keyword, lower-cased, occurs in it. |
| Categories.InCategory | src/lib/recommendationEngine.ts:105-109 | A recommendation is in a category exactly when some keyword, lower-cased, occurs as a slice of its lower-cased title. |
| Categories.Members | src/lib/recommendationEngine.ts:105-109 | The members are exactly the recommendations whose lower-cased title mentions a keyword. |
| Categories.SumScores | src/lib/recommendationEngine.ts:112 | A sum of non-negative scores is non-negative. |
| Categories.SumScoresLeftFold | src/lib/recommendationEngine.ts:112 | The recursive sum equals the left-to-right `reduce`: the sum of all but the last score, plus the last. |
| Categories.SumScoresBounds | src/lib/recommendationEngine.ts:112 | The sum of n scores, each between lo and hi, lies between n·lo and n·hi. |
| Categories.RoundedMean | src/lib/recommendationEngine.ts:111-117 | The average of no members is 0. |
| Categories.MeanBetween | src/lib/recommendationEngine.ts:111-113 | The average of k numbers whose sum lies between k·lo and k·hi lies between lo and hi. |
| Categories.RoundedMeanWithin | src/lib/recommendationEngine.ts:111-117 | The rounded average of a non-empty list lies within any bounds of its scores. |
| Categories.ScoreCategory | src/lib/recommendationEngine.ts:104-119 | A category's row carries its name. The score is 0 without members, and lies in 0..90 whenever the recommendations do. |
| Categories.ScoreTaxonomy | src/lib/recommendationEngine.ts:104-119 | One row per category, in taxonomy order. |
| Categories.CategoryAnalysis | src/lib/recommendationEngine.ts:93-122 | The analysis has one row per category. It is sorted by score highest first, with ties in taxonomy order, and scores stay in 0..90 when the recommendations' do. |
| Categories.ScoreTaxonomyNoDup | src/lib/recommendationEngine.ts:95-119 | No two rows are equal, since the names differ. |
| Categories.AnalysisTiesKeepTaxonomyOrder | src/lib/recommendationEngine.ts:121 | Categories with equal scores keep their taxonomy order. |
| Categories.UniformScoresGiveUniformCategories | src/lib/recommendationEngine.ts:111-117 | If every recommendation has score v, every category with a member scores v. |
| Insights.SkillsOf | src/lib/recommendationEngine.ts:129-133 | The skills fed to the tally are exactly the skills of the given careers. |
| Insights.SkillsOfAppend | src/lib/recommendationEngine.ts:129-133 | The skills of two lists of careers, one after the other, are the skills of the first list followed by those of the second. |
| Insights.SkillsOfSingle | src/lib/recommendationEngine.ts:130-132 | One career contributes its own skills, in its own order. |
| Insights.EnvironmentsOf | src/lib/recommendationEngine.ts:143 | `flatMap` yields exactly the work environments of the given careers. |
| Insights.EnvironmentsOfAppend | src/lib/recommendationEngine.ts:143 | `flatMap` over two lists is the concatenation of `flatMap` over each. |
| Insights.EnvironmentsOfSingle | src/lib/recommendationEngine.ts:143 | One career contributes its own environments, in its own order. |
| Insights.Bump | src/lib/recommendationEngine.ts:131 | One `map.set` either counts an existing key one more in place or appends a new key. |
| Insights.BumpNew | src/lib/recommendationEngine.ts:131 | A key the map does not hold is appended with count 1. |
| Insights.BumpExisting | src/lib/recommendationEngine.ts:131 | A key the map holds keeps its place and its count goes up by one; the other entries are untouched. |
| Insights.TallyLoop | src/lib/recommendationEngine.ts:126-133 | The counting loop never makes more entries than it reads skills. |
| Insights.OccurrencesSnoc | src/lib/recommendationEngine.ts:126-133 | Reading one more skill raises that skill's count by one and leaves the other counts alone. |
| Insights.TallySnocNew | src/lib/recommendationEngine.ts:126-133 | On the declarative side, a first occurrence of a skill appends an entry with count 1. |
| Insights.TallySnocExisting | src/lib/recommendationEngine.ts:126-133 | On the declarative side, another occurrence of a seen skill raises its count in place. |
| Insights.TallyLoopIsTally | src/lib/recommendationEngine.ts:126-133 | The counting loop builds exactly the declarative tally: each distinct skill once, in first-seen order, with its number of occurrences. |
| Insights.TallyFacts | src/lib/recommendationEngine.ts:126-137 | Every entry counts its skill correctly. Every skill seen has an entry, and no entry repeats. |
| Insights.SortedTally | src/lib/recommendationEngine.ts:136-138 | The entries sorted by count, highest first, with equal counts in first-seen order. |
| Insights.SortedTallySkillsDistinct | src/lib/recommendationEngine.ts:136-138 | After sorting, no skill appears twice and every count is still correct. |
| Insights.TopSkills | src/lib/recommendationEngine.ts:141 | The top skills are the first five sorted entries, or all of them if there are fewer distinct skills. |
| Insights.TopSkillsDistinct | src/lib/recommendationEngine.ts:141 | The reported skills are skills that were seen, each reported once. |
| Insights.TopSkillsByFrequency | src/lib/recommendationEngine.ts:136-141 | Occurrence counts never increase along the reported skills. |
| Insights.TopSkillsAreMostFrequent | src/lib/recommendationEngine.ts:136-141 | No skill left out occurs more often than any reported skill. |
| Insights.TopSkillTiesKeepFirstSeenOrder | src/lib/recommendationEngine.ts:126-141 | Reported skills with equal counts appear in the order they were first seen. |
| Insights.GrowthOutlook | src/lib/recommendationEngine.ts:142 | The outlook is never blank. It is the first career's outlook when there is one and it is non-empty, and "Moderate" when the list is empty or the first outlook is blank. |
| Insights.WorkEnvironments | src/lib/recommendationEngine.ts:143 | The environments of the first three careers, each once, in order of first mention. |
| Insights.GenerateCareerInsights | src/lib/recommendationEngine.ts:125-145 | At most five distinct skills, all from the first five careers; a non-blank outlook; environments without repeats. |
| ProfileForm.Without | src/components/ProfileForm.tsx:48 | Removing an item leaves exactly the other items. |
| ProfileForm.Toggle | src/components/ProfileForm.tsx:45-75 | A selected item is removed. An unselected one is appended at the end, and nothing else changes membership. |
| ProfileForm.WithoutCounts | src/components/ProfileForm.tsx:48 | Removal drops every copy of the item and keeps every copy of the others. |
| ProfileForm.WithoutKeepsOrder | src/components/ProfileForm.tsx:48 | Removal from a concatenation removes from each part, so the remaining order is kept. |
| ProfileForm.WithoutAbsent | src/components/ProfileForm.tsx:48 | Removing an item that is not there changes nothing. |
| ProfileForm.WithoutKeepsNoDup | src/components/ProfileForm.tsx:48 | Removal keeps a duplicate-free selection duplicate-free. |
| ProfileForm.ToggleKeepsNoDup | src/components/ProfileForm.tsx:45-75 | Toggling keeps a duplicate-free selection duplicate-free. |
| ProfileForm.ToggleTwiceRestores | src/components/ProfileForm.tsx:45-51 | Ticking then unticking an item restores the selection. |
| ProfileForm.ToggleTwiceMovesToEnd | src/components/ProfileForm.tsx:45-51 | Unticking then ticking an item moves it to the end. |
| ProfileForm.HandleSubmit | src/components/ProfileForm.tsx:77-104 | Submission succeeds exactly when there are at least 2 skills, 1 interest and 1 subject. Otherwise the first failing check's toast is shown. The submitted profile carries the form's values unchanged. |
| ProfileForm.MessagesDistinct | src/components/ProfileForm.tsx:80-93 | The three toasts differ. |
| ProfileForm.PersonalValuesNotValidated | src/components/ProfileForm.tsx:77-101 | Personal values never affect whether the form is accepted or which toast is shown. |
| ProfileForm.InitialFormRejected | src/components/ProfileForm.tsx:24-83 | The untouched form is rejected with the skills toast. |
| CareerCard.ScoreColor | src/components/CareerCard.tsx:15-20 | Each colour is chosen exactly for its score band: ≥80, 60–79, 40–59, below 40. |
| CareerCard.ScoreColorMonotone | src/components/CareerCard.tsx:15-20 | A higher score never gets a lower band. |
| CareerCard.RunLength | src/components/CareerCard.tsx:25 | The greedy `[0-9,]+` run takes amount characters only and stops at the first other character. |
| CareerCard.Tokenize | src/components/CareerCard.tsx:25 | The first piece is an amount exactly when a match starts the string, and a plain first piece copies its character. The pieces are no more than the characters, and every amount is a non-empty run of `[0-9,]`. |
| CareerCard.TokenizeRoundTrip | src/components/CareerCard.tsx:25 | Writing the pieces back out gives the input string. |
| CareerCard.TokenizeMaximal | src/components/CareerCard.tsx:25 | No amount could be extended, and no '$' left as text starts a match. |
| CareerCard.StripCommas | src/components/CareerCard.tsx:33 | Removing commas keeps exactly the non-comma characters. |
| CareerCard.AmountsAreRuns | src/components/CareerCard.tsx:25 | The matches are exactly the runs of the amount pieces. |
| CareerCard.Amounts | src/components/CareerCard.tsx:25 | There are no more matches than pieces. |
| CareerCard.GroupPairs | src/components/CareerCard.tsx:36 | Grouping in pairs lengthens a run of n digits by (n - 1) / 2 commas (rounded down), and a run of more than two ends with a comma and its last two digits. |
| CareerCard.GroupIndian | src/components/CareerCard.tsx:36 | en-IN grouping adds the expected number of commas, leaves up to three digits alone, and otherwise ends with a comma and the last three digits. |
| CareerCard.GroupIndianStrip | src/components/CareerCard.tsx:36 | Removing the commas from the en-IN grouping gives the digits back. |
| CareerCard.GroupIndianChars | src/components/CareerCard.tsx:36 | en-IN grouping of digits writes only digits and commas. |
| CareerCard.ParseRun | src/components/CareerCard.tsx:33 | `parseInt` is NaN exactly when the match holds no digit. |
| CareerCard.Rupees | src/components/CareerCard.tsx:32-37 | A converted amount starts with "₹". It reads "NaN" when there is no digit; otherwise it is 75 times the dollar value in grouped digits. |
| CareerCard.RupeesValue | src/components/CareerCard.tsx:33-36 | Reading the converted amount back gives exactly 75 times the dollar amount. |
| CareerCard.RupeesHasOneSign | src/components/CareerCard.tsx:36 | A converted amount holds exactly one rupee sign. |
| CareerCard.RenderRupees | src/components/CareerCard.tsx:40-45 | Pieces without amounts are written back unchanged. |
| CareerCard.RenderRupeesAppend | src/components/CareerCard.tsx:40-45 | Rendering distributes over concatenation: the text of `a + b` is the text of `a` followed by the text of `b`, so each piece is replaced independently of its neighbours. |
| CareerCard.RenderRupeesPiece | src/components/CareerCard.tsx:40-45 | A single plain character is written back as itself, and a single amount becomes its rupee text. Together with `RenderRupeesAppend` this fixes the whole output. |
| CareerCard.ConvertToRupees | src/components/CareerCard.tsx:27-29 | A string in which the pattern finds no dollar amount is returned unchanged. |
| CareerCard.EarlyReturnAgrees | src/components/CareerCard.tsx:27-45 | The early return agrees with what the replace loop would give. |
| CareerCard.RenderCountsRupees | src/components/CareerCard.tsx:40-45 | Rendering adds exactly one rupee sign per amount. |
| CareerCard.ConvertCountsRupees | src/components/CareerCard.tsx:23-46 | The converted string has as many rupee signs as the input plus one per dollar amount. |
| CareerCard.RankIndicator | src/components/CareerCard.tsx:50 | Ranks 1, 2 and 3 get the gold, silver and bronze medals, and only those ranks do. Any other rank is '#' and its number. |
| SkillGap.Band | src/components/SkillGapAnalysis.tsx:18-22 | Each band is chosen exactly for its range: ≤20, 20–50, above 50. |
| SkillGap.GapColor | src/components/SkillGapAnalysis.tsx:18-22 | Green exactly at ≤20, yellow exactly in (20, 50], red exactly above 50. |
| SkillGap.GapMessage | src/components/SkillGapAnalysis.tsx:40-44 | The small-gap advice shows exactly at ≤20, the moderate-gap advice exactly in (20, 50], the significant-gap advice exactly above 50. |
| SkillGap.MessagesDistinct | src/components/SkillGapAnalysis.tsx:40-44 | The three advice texts differ, in length. |
| SkillGap.ColorAndMessageAgree | src/components/SkillGapAnalysis.tsx:18-44 | The colour and the advice always belong to the same band. |
| SkillGap.BandMonotone | src/components/SkillGapAnalysis.tsx:18-22 | A larger gap never gets a better band. |
| SkillGap.ProgressValue | src/components/SkillGapAnalysis.tsx:38 | The bar and the gap add up to 100, and the bar stays in 0..100 when the gap does. |
| SkillGap.RenderPanel | src/components/SkillGapAnalysis.tsx:36-62 | The skills block is shown exactly when skills are missing and lists them all, in order. Colour and advice match the band. |
| CategoryChart.PaletteDistinct | src/components/CategoryChart.tsx:13 | The six colours are pairwise different. |
| CategoryChart.ValidData | src/components/CategoryChart.tsx:17 | The valid entries are exactly the entries with a positive score. |
| CategoryChart.ValidDataKeepsOrder | src/components/CategoryChart.tsx:17 | Filtering splits over a concatenation, so kept entries keep their order. |
| CategoryChart.SortedValidDataIsPrefix | src/components/CategoryChart.tsx:17 | On data sorted highest first, the valid entries are a prefix of the data. |
| CategoryChart.ColorIndex | src/components/CategoryChart.tsx:53 | The colour index is always inside the palette and is the index itself for the first six slices. |
| CategoryChart.Slices | src/components/CategoryChart.tsx:41-54 | One slice per valid entry, with its category and score. Slice `i` gets palette colour `i` for the first six slices, and the colours repeat every six slices, as `COLORS[index % COLORS.length]` gives. |
| CategoryChart.NearbySlicesDiffer | src/components/CategoryChart.tsx:52-54 | Slices fewer than six apart have different colours. |
| CategoryChart.RenderChart | src/components/CategoryChart.tsx:38-64 | The placeholder shows exactly when no entry has a positive score. Otherwise there is one positive slice per valid entry. |
| CategoryChart.SliceLabel | src/components/CategoryChart.tsx:50 | A label is the printed score followed by '%'. |
| CatalogFacts.CatalogIdsDistinct | src/data/careerData.ts:19-160 | Ten careers with pairwise different ids, so no career is repeated. |
| CatalogFacts.CatalogSkillCounts | src/data/careerData.ts:19-160 | Every career lists five skills and three work environments. |
| CatalogFacts.CatalogOutlooks | src/data/careerData.ts:19-160 | Every outlook is "Very High", "High" or "Moderate", so the outlook fallback never applies to a catalog career. |
| CatalogFacts.CatalogMinimumGpas | src/data/careerData.ts:19-160 | Every minimum GPA lies between 2.7 and 3.2. |
| CatalogFacts.SkillsListDistinct | src/data/careerData.ts:163-184 | Twenty different skills. |
| CatalogFacts.InterestsListDistinct | src/data/careerData.ts:187-208 | Twenty different interests. |
| CatalogFacts.AcademicSubjectsDistinct | src/data/careerData.ts:211-232 | Twenty different academic subjects. |
| CatalogFacts.DataScientistCategories | src/lib/recommendationEngine.ts:95-109 | The Data Scientist falls in both Technology ("data") and Sciences ("scientist"), whatever the profile. |
| WorkedExample.EngineerMatchesEverything | src/data/careerData.ts:20-33 | Each of the sample's terms ("Programming", "Problem Solving", "Technology", "Computer Science") is itself a software engineer term, so each matches. |
| WorkedExample.EngineerScoresNinety | src/lib/recommendationEngine.ts:13-86 | The sample (GPA 3.5) scores 40 + 30 + 10 + 10 = 90 against the software engineer. |
| WorkedExample.LettersKeepApart | src/lib/recommendationEngine.ts:22-25 | Two terms each holding a letter the other lacks, after lower-casing, do not match. |
| WorkedExample.ProgrammingMissesHrSkills | src/data/careerData.ts:132-145 | "Programming" matches none of the HR specialist's five skills. |
| WorkedExample.ProblemSolvingMissesHrSkills | src/data/careerData.ts:132-145 | "Problem Solving" matches none of the HR specialist's five skills. |
| WorkedExample.TechnologyMissesHrInterests | src/data/careerData.ts:132-145 | "Technology" matches none of the HR specialist's four interests. |
| WorkedExample.ComputerScienceMissesHrSubjects | src/data/careerData.ts:132-145 | "Computer Science" matches none of the HR specialist's three subjects. |
| WorkedExample.HrScoresTen | src/lib/recommendationEngine.ts:13-86 | The sample scores only the GPA bonus against the HR specialist: 10, with the GPA sentence as the only reason. |
| WorkedExample.HigherScoreEarlier | src/lib/recommendationEngine.ts:89 | In a list sorted highest first, a strictly higher score sits strictly earlier. |
| WorkedExample.HigherRankedFirst | src/lib/recommendationEngine.ts:77-90 | Of two catalog careers, the one scored strictly higher comes strictly earlier in the ranking. |
| WorkedExample.EngineerRanksAboveHr | src/lib/recommendationEngine.ts:77-90 | In the sample's ranking of any catalog holding both, the site's among them, the software engineer precedes the HR specialist. |
| WorkedExample.KeywordMissesHr | src/lib/recommendationEngine.ts:106-108 | A keyword holding a letter absent from "hr specialist" does not occur in it. |
| WorkedExample.KeywordMissesHrAt | src/lib/recommendationEngine.ts:106-108 | A keyword whose first letter occurs once in "hr specialist", followed there by another letter than the keyword's second, does not occur in it. |
| WorkedExample.HrInNoCategory | src/lib/recommendationEngine.ts:95-109 | No keyword of the five categories occurs in "HR Specialist", so the HR specialist belongs to no category and is a member of none, whatever is recommended. |
| SalaryExample.RangeConverts | src/components/CareerCard.tsx:23-46 | "$low - $high", with both amounts well formed, converts to the two converted amounts around the same separator. |
| SalaryExample.ConvertRange | src/data/careerData.ts:30 | "$70,000 - $150,000" is the software engineer's salary range in the catalog, and it converts to "₹52,50,000 - ₹1,12,50,000". |

## Left out

- Session storage, the authentication context and page navigation are left out. They are I/O around the engine; `HandleSubmit` returns the profile it would pass on.
- The skill-gap and learning-roadmap generators are not part of this model. The gap score and the missing skills are inputs of `SkillGap.RenderPanel`.
- All JSX layout, CSS classes other than the chosen colours, the chart's tooltip and legend, and the slider are left out.
- Floating point is left out. Scores are exact reals, so sums like 0.1 + 0.2 are exact, and parsed amounts past 2^53 do not lose precision.
- `toLocaleString('en-IN')` is modelled only for non-negative whole numbers, the only values the conversion can produce.
- The sequential `String.replace` loop of `convertToRupees` is modelled as one left-to-right scan. The argument that they agree is given above; it is not proved.
- Lower-casing covers ASCII letters only.
- Compatibility.Reasons: its own contract bounds only the count. The order and presence of each sentence are stated in `Compatibility.ReasonsInOrder` and `Compatibility.ReasonsPresent`.
- Categories.RoundedMean: its own contract states only the empty case. The bounds are stated in `Categories.RoundedMeanWithin` and `Categories.UniformScoresGiveUniformCategories`.
- Compatibility.CalculateCompatibility: its own contract bounds the score. Monotonicity, case-insensitivity and the extreme cases are separate lemmas.
- CareerCard.ConvertToRupees: its own contract states only the early return. The rest is stated in `CareerCard.EarlyReturnAgrees`, `CareerCard.ConvertCountsRupees` and `SalaryExample.RangeConverts`.
- The salary conversion is worked through for the software engineer's range only. The other nine ranges follow from `SalaryExample.RangeConverts` the same way.
- The scoring is worked through for one sample profile, against the software engineer and the HR specialist. The other careers are not scored one by one.
