# Contributor insights and filters, modelled in Dafny

This project models the analytic core of the contributor-summaries
application. It has two parts:

- **`InsightsEngine`** (`analytics/insights_engine.py`) turns two lists into dashboard
  figures. The lists are contributor records (username, commit, issue and
  repository counters, skill, expertise and language tags, activity level,
  contribution style) and repo-work rows (one contributor's commits, issues and
  technologies in one repository). The figures are:
  - an overview;
  - a skill distribution;
  - per-repository activity and technology diversity;
  - activity segments;
  - collaboration pairs;
  - technology popularity;
  - commits-per-repository productivity with percentiles;
  - advice sentences;
  - a per-contributor report.
- **`AdvancedFilters`** (`ui/filters.py`) applies the sidebar's filter settings
  to contributor and repository lists. It runs the filters as a chain of list
  comprehensions, then an optional sort, and it prints a one-line summary of
  the active filters.

Every operation is a pure function on immutable datatypes. A Python dictionary
record becomes a datatype with every field present, and an absent key holds the
default the code reads (`get(key, default)`). On the paths that read a
DataFrame column an absent key is NaN instead; those paths are listed under
"Left out". An analysis that returns `{}` on
empty input returns `None`. An operation that raises returns `Failure`.
Python's `Counter`, `sorted` (stable, `reverse=True`), `str.lower`, `str.split`,
`str.join`, the substring test and `np.percentile` (linear interpolation) are
modelled in their own modules.

Modules:

| module | what it holds |
|---|---|
| `Wrappers` | `Option` and `Result` |
| `Seqs` | counting, first-seen de-duplication, filter/map/sum, permutation facts |
| `Strings` | string order, lower-casing, splitting, joining, substrings |
| `Sorting` | the stable keyed sort |
| `Counter` | `Counter`, `dict(Counter)`, `most_common` |
| `Records` | the two record types |
| `Overview`, `Skills`, `Repositories`, `Segments`, `Collaboration`, `Technology`, `Productivity`, `Recommendations`, `Report` | one engine method each |
| `Filters` | `AdvancedFilters` |
| `Fixture` | the sample organisation of the engine's test suite, and what each analysis reports for it |

## Model

| member | source | states |
|---|---|---|
| Overview.GetOverviewMetrics | ai_contributor_summaries/analytics/insights_engine.py:37-66 | Returns nothing exactly when there are no contributors. Otherwise: the contributor count; total commits and total issues are the sums over the contributors; the mean repository count is the sum of repository counts over the number of contributors; commits and issues per contributor are those totals over the number of contributors; the activity histogram is keyed by exactly the levels that occur; the top languages are `Counter(...).most_common(10)` of every primary-language entry (`Counter.IsMostCommon`). |
| Overview.OverviewOrderIndependent | ai_contributor_summaries/analytics/insights_engine.py:42-47 | Totals, the mean repository count and the activity histogram depend only on the multiset of contributors, not on their order. |
| Overview.OverviewTotalsAdd | ai_contributor_summaries/analytics/insights_engine.py:42-43 | The commit, issue and contributor totals of two concatenated lists are the sums of each list's totals. |
| Overview.ActivityDistributionTotal | ai_contributor_summaries/analytics/insights_engine.py:47 | The histogram counts each level's contributors, and the counts add up to the number of contributors. |
| Skills.AnalyzeSkillDistribution | ai_contributor_summaries/analytics/insights_engine.py:68-103 | Returns nothing exactly without contributors. Otherwise: the number of unique skills is the size of the skill set; the distribution maps each occurring skill to its occurrence count; the top skills are `most_common(15)` of the skill entries (`Counter.IsMostCommon`); the diversity index is 0 without skill entries, and otherwise the number of distinct skills over the number of entries, which lies in (0, 1]; the rare skills are the first ten skills in first-seen order whose count is under a fifth of the contributors (`Seqs.IsFirstSeenSelection`); in integer terms (`Skills.ListsRareSkills`) every listed skill has `5 * count < contributors`, fewer than ten are listed only when every such skill is, and such a skill left out first occurs after each listed one. |
| Skills.RareThresholdIsInteger | ai_contributor_summaries/analytics/insights_engine.py:93-94 | `count < n * 0.2` holds exactly when `5 * count < n`. |
| Skills.RareSkillCandidates | ai_contributor_summaries/analytics/insights_engine.py:94 | A skill is a candidate exactly when it occurs and is below the rare threshold; no candidate is repeated, and the candidates appear in order of first occurrence. |
| Skills.RareSelection | ai_contributor_summaries/analytics/insights_engine.py:92-100 | Any first-seen selection of at most ten rare skills, restated over the integers (`Skills.ListsRareSkills`): every listed skill occurs with `5 * count < contributors`; fewer than ten only when every such skill is listed; every such skill left out first occurs after each listed one. |
| Skills.RareSkills | ai_contributor_summaries/analytics/insights_engine.py:94-100 | `rare_skills[:10]` is the selection of the first ten rare skills in first-seen order (`Seqs.IsFirstSeenSelection`), and the same list in integer terms (`Skills.ListsRareSkills`). |
| Skills.DiversityIndex | ai_contributor_summaries/analytics/insights_engine.py:89 | The index is 0 without entries; otherwise it is the number of distinct skills over the number of entries, and it lies in (0, 1]. |
| Skills.AverageSkillsWithUniqueUsernames | ai_contributor_summaries/analytics/insights_engine.py:75-89 | With unique usernames, the average number of skills is the number of skill entries over the number of contributors. |
| Skills.SkillCountByUser | ai_contributor_summaries/analytics/insights_engine.py:75-82 | The per-user map is keyed by exactly the usernames that occur. |
| Skills.SkillCountsOrderIndependent | ai_contributor_summaries/analytics/insights_engine.py:85-102 | The skill distribution, the unique-skill count and the rare-skill set do not depend on contributor order. |
| Repositories.AnalyzeRepositoryPatterns | ai_contributor_summaries/analytics/insights_engine.py:105-141 | Returns nothing exactly without rows. Otherwise: the repository count is the number of distinct names; the activity frame is one aggregate per name; the mean rows-per-repository is the row count over the repository count; the two top lists have at most ten entries. |
| Repositories.RowTotals | ai_contributor_summaries/analytics/insights_engine.py:111-115 | Grouping loses and duplicates nothing: the aggregates' commits, issues and row counts add up to the rows' totals. |
| Repositories.GroupedSumIsTotal | ai_contributor_summaries/analytics/insights_engine.py:111-115 | Summing any row field group by group over distinct names covering every row gives the plain total. |
| Repositories.ActivityRowsAreGroups | ai_contributor_summaries/analytics/insights_engine.py:111-115 | Each aggregate names an occurring repository, and its contributor count is that repository's number of rows (at least 1). Every row's repository has an aggregate, and no name is aggregated twice. |
| Repositories.RowsNamedCount | ai_contributor_summaries/analytics/insights_engine.py:114 | The rows grouped under a name are as many as the occurrences of that name. |
| Repositories.MostActiveRepositories | ai_contributor_summaries/analytics/insights_engine.py:117-118 | There are min(10, number of repositories) entries, each an aggregate of the input and none listed twice (the listed multiset is contained in the aggregates'), in non-increasing commit order; no aggregate left out has more commits than one listed. |
| Repositories.FewRepositoriesAllActive | ai_contributor_summaries/analytics/insights_engine.py:117-118 | With at most ten repositories, every repository's aggregate is among the most active. |
| Repositories.TopByCommits | ai_contributor_summaries/analytics/insights_engine.py:118 | For any list of aggregates, the first ten by commits list no aggregate more often than it occurs, are in non-increasing commit order, and no aggregate left out has more commits than one listed. |
| Repositories.MostDiverseRepositories | ai_contributor_summaries/analytics/insights_engine.py:123-133 | There are min(10, number of repositories) pairs, each an occurring repository with the size of its technology union, none listed twice, non-increasing; no repository left out uses more technologies than one listed; the listed repositories of each size are the first repositories of that size in first-seen order (stable `sorted`, ties also across the cut). |
| Repositories.RepositoryTotalsOrderIndependent | ai_contributor_summaries/analytics/insights_engine.py:111-121 | The repository count and the mean rows per repository do not depend on row order. |
| Segments.ClassifyFirstMatch | ai_contributor_summaries/analytics/insights_engine.py:157-164 | First match wins. A contributor is a power user iff they have at least 100 commits and 3 repositories. They are active iff not a power user and they have at least 50 commits and 2 repositories. They are regular iff they fail the active thresholds and have at least 20 commits or 1 repository. |
| Segments.OccasionalMeansNoRepository | ai_contributor_summaries/analytics/insights_engine.py:161-164 | A contributor is occasional iff they have fewer than 20 commits and fewer than 1 repository. |
| Segments.ClassifyMonotone | ai_contributor_summaries/analytics/insights_engine.py:157-164 | More commits and more repositories never give a lower segment. |
| Segments.SegmentContributors | ai_contributor_summaries/analytics/insights_engine.py:143-188 | Returns nothing exactly without contributors. Otherwise: the segments present are exactly those of some contributor, and each is non-empty; every contributor's username is listed in their segment; statistics exist for exactly the present segments, with count equal to the list length and percentage equal to count / total × 100; all four criteria are reported. |
| Segments.SegmentsPartition | ai_contributor_summaries/analytics/insights_engine.py:151-168 | The four segment lists together hold every username exactly once (as multisets), so their sizes add up to the number of contributors. |
| Segments.MembersMultisetPartition | ai_contributor_summaries/analytics/insights_engine.py:151-168 | The union of the four member lists, as a multiset, is the multiset of usernames. |
| Segments.PercentagesSumTo100 | ai_contributor_summaries/analytics/insights_engine.py:171-177 | The unrounded percentages of the occurring segments add up to 100. |
| Segments.Percentage | ai_contributor_summaries/analytics/insights_engine.py:174 | The percentage times the total is the count times 100. |
| Collaboration.AnalyzeCollaborationPatterns | ai_contributor_summaries/analytics/insights_engine.py:190-228 | Returns nothing exactly without rows. Otherwise: the collaboration total is the number of distinct pairs; the top pairs are the stable descending sort of the counter, cut at ten, which is `most_common(10)` of the pair increments (`Counter.IsMostCommon`); the most collaborative repositories are the five best scores over the distinct repositories (`Collaboration.IsTopRepositories`, as under MostCollaborativeRepositories); the mean collaborators per repository is over the distinct repositories. |
| Collaboration.IdsIn | ai_contributor_summaries/analytics/insights_engine.py:196-202 | A repository's contributor list has no repeats and holds exactly those with a row in it. |
| Collaboration.Ordered | ai_contributor_summaries/analytics/insights_engine.py:210 | The sorted pair holds the same two names, smaller first. |
| Collaboration.CollaborationCountIsSharedRepositories | ai_contributor_summaries/analytics/insights_engine.py:204-211 | The counter's value for a sorted pair is the number of repositories both contributors worked on. |
| Collaboration.CountPairsOf | ai_contributor_summaries/analytics/insights_engine.py:206-211 | Within one repository, a pair of different contributors is counted once if both belong to it and never otherwise. |
| Collaboration.CollaborationKeys | ai_contributor_summaries/analytics/insights_engine.py:204-211 | Every counted pair is strictly sorted, and its two contributors share at least one repository. |
| Collaboration.ScoreIsPairCount | ai_contributor_summaries/analytics/insights_engine.py:217-220 | A repository's score is `k * (k - 1) // 2` for its k contributors, and that is the number of pairs its loop produces. |
| Collaboration.PairCountFormula | ai_contributor_summaries/analytics/insights_engine.py:218 | The sum 0 + 1 + ... + (k - 1) that the model uses for a score equals `k * (k - 1) // 2`, and twice it is `k * (k - 1)`. |
| Collaboration.PairsWithLength | ai_contributor_summaries/analytics/insights_engine.py:208-211 | The nested loop over k contributors produces k(k-1)/2 pairs. |
| Collaboration.StreamLength | ai_contributor_summaries/analytics/insights_engine.py:206-220 | The total number of pair increments is the sum of the repository scores. |
| Collaboration.MostCollaborativeRepositories | ai_contributor_summaries/analytics/insights_engine.py:216-221 | Over the distinct repository names there are min(5, number of repositories) entries, each a listed repository with its score, non-increasing; no repository left out scores higher than one listed; equal scores keep the order in which the repositories first occur, also across the cut. |
| Technology.AnalyzeTechnologyTrends | ai_contributor_summaries/analytics/insights_engine.py:230-265 | Returns nothing exactly without rows. Otherwise: the technology count is the size of the technology set; adoption rates are the occurrence counts of exactly the occurring technologies; the popular technologies are `most_common(15)` of the technology entries (`Counter.IsMostCommon`); the emerging ones are the first ten emerging technologies in first-seen order (`Seqs.IsFirstSeenSelection`), each at most `max(1, repos / 10)`; in integer terms (`Technology.ListsEmerging`) each listed one has `count <= 1` or `10 * count <= repos`, fewer than ten are listed only when every such technology is, and one left out first occurs after each listed one; the mean is of the per-repository set sizes. |
| Technology.EmergingThresholdIsInteger | ai_contributor_summaries/analytics/insights_engine.py:255-257 | `count <= max(1, repos * 0.1)` holds exactly when `count <= 1` or `10 * count <= repos`. |
| Technology.EmergingCandidates | ai_contributor_summaries/analytics/insights_engine.py:257 | A technology is a candidate exactly when it occurs and is emerging; no candidate is repeated, and the candidates appear in order of first occurrence. |
| Technology.FirstEmerging | ai_contributor_summaries/analytics/insights_engine.py:257-262 | `emerging_techs[:10]` is the selection of the first ten emerging technologies in first-seen order, and the same list in integer terms (`Technology.ListsEmerging`). |
| Technology.EmergingSelection | ai_contributor_summaries/analytics/insights_engine.py:254-262 | Any first-seen selection of at most ten emerging technologies, restated over the integers: every listed one occurs with `count <= 1` or `10 * count <= repos`; fewer than ten only when every such technology is listed; every such technology left out first occurs after each listed one. |
| Technology.OccurrencesCoverRepositories | ai_contributor_summaries/analytics/insights_engine.py:247-257 | A technology's occurrence count is at least the number of repositories whose set contains it. |
| Technology.UsingOverIsCardinality | ai_contributor_summaries/analytics/insights_engine.py:237-244 | Counting repositories one by one over distinct names gives the size of the set of repositories using the technology. |
| Technology.AdoptionCountsTotal | ai_contributor_summaries/analytics/insights_engine.py:247-264 | The adoption counts add up to the number of technology entries. |
| Productivity.CalculateProductivityMetrics | ai_contributor_summaries/analytics/insights_engine.py:267-304 | The empty mapping is returned exactly when either input is empty. It fails exactly when neither input is empty but no contributor has a repository (the percentile of an empty list). Otherwise it returns the metrics of the entries. |
| Productivity.Entries | ai_contributor_summaries/analytics/insights_engine.py:273-287 | Every contributor with a positive repository count has an entry, and every entry has a positive repository count. |
| Productivity.EntriesFollowContributors | ai_contributor_summaries/analytics/insights_engine.py:273-287 | There is one entry per contributor with a positive repository count, in input order: the i-th entry is built from the i-th such contributor. |
| Productivity.EntryRatio | ai_contributor_summaries/analytics/insights_engine.py:280-281 | The ratio times the repository count gives back the commits. |
| Productivity.NoEntries | ai_contributor_summaries/analytics/insights_engine.py:280 | There are no entries exactly when no contributor has a positive repository count. |
| Productivity.MetricsOf | ai_contributor_summaries/analytics/insights_engine.py:289-304 | The top list satisfies IsTopTen: min(10, number of entries) entries, none listed more often than it occurs in the input, in non-increasing ratio order, no entry left out with a higher ratio than one listed, and the listed entries of each ratio are the first of that ratio in input order (stable `list.sort`); the average is the mean of the ratios; the percentiles are taken of the ratios sorted ascending. |
| Productivity.TopTen | ai_contributor_summaries/analytics/insights_engine.py:289-296 | IsTopTen: min(10, n) entries, no entry more often than in the input, non-increasing ratio, no entry left out with a higher ratio, and ties kept in input order within the list and across the cut. |
| Productivity.StrictMaximumRanksFirst | ai_contributor_summaries/analytics/insights_engine.py:289-296 | An entry whose ratio beats all others is ranked first. |
| Productivity.PercentileBetweenNeighbours | ai_contributor_summaries/analytics/insights_engine.py:298-303 | numpy's linear percentile lies between the two values around the fractional index `(n-1)q/100`, and equals the last value when the index falls on it. |
| Productivity.PercentileBounds | ai_contributor_summaries/analytics/insights_engine.py:298-303 | A percentile lies between the smallest and the largest value. |
| Productivity.PercentileMonotone | ai_contributor_summaries/analytics/insights_engine.py:298-303 | A higher percentile is never smaller. |
| Productivity.PercentilesOrdered | ai_contributor_summaries/analytics/insights_engine.py:298-303 | The reported percentiles satisfy 25th ≤ 50th ≤ 75th ≤ 90th, and all lie between the smallest and the largest ratio. |
| Productivity.IndexBounds | ai_contributor_summaries/analytics/insights_engine.py:299-302 | The integer part of the fractional index is a valid position, and the fraction is under one. |
| Productivity.ZeroRepositoryContributorIgnored | ai_contributor_summaries/analytics/insights_engine.py:280 | Inserting a contributor without repositories anywhere in a non-empty list leaves the metrics unchanged. |
| Productivity.SortAscending | ai_contributor_summaries/analytics/insights_engine.py:293-299 | The result is an ascending permutation of its input. |
| Recommendations.GenerateRecommendations | ai_contributor_summaries/analytics/insights_engine.py:306-358 | Without contributors all four lists are empty. Otherwise: three team-composition sentences; three sentences in each of the other lists when there are rows, and none without rows. |
| Recommendations.TeamAdviceNamesSkills | ai_contributor_summaries/analytics/insights_engine.py:319-328 | The hiring sentence names each of the first three top skills, and the recruiting sentence each of the first three rare skills. |
| Recommendations.TrainingAdviceNamesEmerging | ai_contributor_summaries/analytics/insights_engine.py:331-338 | The training sentence names each of the first three emerging technologies. |
| Recommendations.AdoptionAdviceNamesPopular | ai_contributor_summaries/analytics/insights_engine.py:349-356 | The standardisation sentence names each of the first three popular technologies. |
| Recommendations.ProcessAdvice | ai_contributor_summaries/analytics/insights_engine.py:340-347 | The three fixed process sentences appear exactly when there are rows. |
| Recommendations.SentenceNamesFirstThree | ai_contributor_summaries/analytics/insights_engine.py:325 | A sentence built around `', '.join(xs[:3])` contains each of the first three items. |
| Report.FirstNamed | ai_contributor_summaries/analytics/insights_engine.py:362-366 | No record is found exactly when no contributor has the username; otherwise the result is the first record with it. |
| Report.RowsBy | ai_contributor_summaries/analytics/insights_engine.py:369 | The rows kept are exactly the contributor's rows, drawn from the input. |
| Report.GenerateContributorReportAsWritten | ai_contributor_summaries/analytics/insights_engine.py:360-369 | As the code runs it fails on the `username` column exactly when there are no contributors. It fails on the `contributor_id` column exactly when there are no rows but the username exists. |
| Report.GenerateContributorReport | ai_contributor_summaries/analytics/insights_engine.py:360-410 | Returns nothing exactly for an unknown username. Otherwise the report carries the username asked for and every field of the first matching record: activity level, contribution style, commits, issues, repositories, skills, expertise areas, primary languages and summary; commits per repository times the repository count is the commits, and it is 0 without repositories. There is one breakdown line per row of that contributor, in row order, copying its repository, commits, issues, technologies and contribution type. |
| Report.AsWrittenAgreesWhenItSucceeds | ai_contributor_summaries/analytics/insights_engine.py:360-410 | The code as written succeeds whenever there are contributors and either some repo-work rows or no contributor with the username. It then agrees with the intended report. |
| Report.EmptyContributorsFail | ai_contributor_summaries/analytics/insights_engine.py:360-364 | With no contributors the code fails, while the intended report is the empty mapping. |
| Report.NoRowsFail | ai_contributor_summaries/analytics/insights_engine.py:366-369 | A known contributor with no rows at all makes the code fail, while the intended report has an empty breakdown. |
| Report.CommitsPerRepo | ai_contributor_summaries/analytics/insights_engine.py:401 | The figure times the repository count is the commits; it is 0 without repositories. |
| Report.BreakdownRowCount | ai_contributor_summaries/analytics/insights_engine.py:369-385 | The breakdown has as many lines as the contributor has rows. |
| Report.BreakdownCommits | ai_contributor_summaries/analytics/insights_engine.py:377-385 | The breakdown's commits add up to the commits of the contributor's rows. |
| Filters.ApplyContributorFilters | ai_contributor_summaries/ui/filters.py:223-300 | The result is empty for an empty input. Each contributor occurs in it as often as in the input when it passes every active setting (`Passes`, a reference conjunction), and not at all otherwise. Without a sort option it is the input filtered by `Passes` in input order; with one it is that filtered list sorted by `_sort_contributors`. |
| Filters.ContributorStagesMeanPasses | ai_contributor_summaries/ui/filters.py:230-294 | The active stages accept a contributor exactly when `Passes` holds, setting by setting. |
| Filters.StagesAreOnePass | ai_contributor_summaries/ui/filters.py:228-294 | Filtering stage after stage equals one order-preserving pass by the conjunction of the stages. |
| Filters.ContributorStagesAreFilter | ai_contributor_summaries/ui/filters.py:228-294 | The chain of comprehensions equals one filter of the input by `Passes`. |
| Filters.FilteredInInputOrder | ai_contributor_summaries/ui/filters.py:228-300 | Without a known sort option, the survivors come out in input order. |
| Filters.NoFiltersIsIdentity | ai_contributor_summaries/ui/filters.py:223-300 | Empty settings return the list unchanged. |
| Filters.SearchIgnoresQueryCase | ai_contributor_summaries/ui/filters.py:231-236 | Lower-casing the query first does not change the result. |
| Filters.BlankQueryMatchesAll | ai_contributor_summaries/ui/filters.py:358-359 | A query made only of whitespace has no terms and matches every text. |
| Filters.OneWordQuery | ai_contributor_summaries/ui/filters.py:358-359 | A one-word query matches exactly when the word occurs in the lower-cased text. |
| Filters.QueryIsConjunction | ai_contributor_summaries/ui/filters.py:358-359 | A query with whitespace between two parts matches exactly when both parts match. |
| Filters.UsernameIsSearched | ai_contributor_summaries/ui/filters.py:347-359 | A word found in the lower-cased username finds the contributor. |
| Filters.SortContributors | ai_contributor_summaries/ui/filters.py:376-394 | The result is a permutation of the input. An unknown option leaves the list unchanged; a known one gives a list sorted by its key and direction that keeps the input order of equal keys. |
| Filters.CommitOrders | ai_contributor_summaries/ui/filters.py:382-385 | High-Low gives non-increasing total commits; Low-High gives non-decreasing. |
| Filters.RepositoryCountOrders | ai_contributor_summaries/ui/filters.py:386-389 | The same, for repository counts. |
| Filters.UsernameOrders | ai_contributor_summaries/ui/filters.py:378-381 | A-Z orders the lower-cased usernames ascending, Z-A descending. |
| Filters.ActivityOrder | ai_contributor_summaries/ui/filters.py:390-392 | Activity ranks are non-increasing: high and active, then medium, then low, then the rest. |
| Filters.ActivitySortIsStable | ai_contributor_summaries/ui/filters.py:390-392 | Contributors with the same activity rank keep their relative order. |
| Filters.ApplyRepositoryFilters | ai_contributor_summaries/ui/filters.py:302-343 | The result is empty for an empty input. Each row occurs in it as often as in the input when it passes search, commit range, technologies and contribution type (`RepoPasses`), and not at all otherwise. Without a sort option it is the input filtered by `RepoPasses` in input order; with one it is that filtered list sorted by `_sort_repositories`. |
| Filters.RepositoryStagesMeanPasses | ai_contributor_summaries/ui/filters.py:309-337 | The active repository stages accept a row exactly when `RepoPasses` holds. |
| Filters.RepositoryStagesAreFilter | ai_contributor_summaries/ui/filters.py:309-337 | The chain of repository comprehensions equals one filter of the input by `RepoPasses`. |
| Filters.ContributorRangeIgnored | ai_contributor_summaries/ui/filters.py:302-343 | Changing the contributor-count range never changes the filtered repositories. |
| Filters.SortRepositories | ai_contributor_summaries/ui/filters.py:396-409 | The result is a permutation of the input. An unknown option leaves the list unchanged; a known one gives a stable sort by its key and direction. |
| Filters.RepositoryOrders | ai_contributor_summaries/ui/filters.py:402-407 | Commit counts are non-increasing for High-Low and non-decreasing for Low-High. Last-contribution strings are non-increasing for Recent Activity. |
| Filters.ContributorCountSortIsNoOp | ai_contributor_summaries/ui/filters.py:396-409 | The two contributor-count options offered in the sidebar leave the list unchanged. |
| Filters.GetFilterSummary | ai_contributor_summaries/ui/filters.py:411-439 | The summary is "No filters active" exactly when none of its seven settings is truthy; otherwise it is "Active filters: " followed by the parts joined with a space, a vertical bar and a space. |
| Filters.SummaryPartsInKeyOrder | ai_contributor_summaries/ui/filters.py:415-436 | There is one part per truthy key, in the fixed key order (search text, activity levels, required skills, any skills, languages, expertise areas, technologies); each part is its label followed by the quoted search text or the comma-joined list. |
| Filters.SummaryQuotesSearchText | ai_contributor_summaries/ui/filters.py:415-439 | A non-empty search text appears verbatim in the summary. |
| Counter.MostCommon | ai_contributor_summaries/analytics/insights_engine.py:85-86 | `most_common(n)` lists min(n, number of distinct elements) different elements of the input, each with its true count, in non-increasing count order; no element left out is more frequent than one listed; equal counts keep the order of first occurrence, and at the cut an element left out with the count of a listed one first occurs after it. |
| Counter.MostCommonCoversAll | ai_contributor_summaries/analytics/insights_engine.py:247-248 | When n reaches the number of distinct elements, every element is listed with its count. |
| Seqs.FirstSeenSelection | ai_contributor_summaries/analytics/insights_engine.py:94-100 | Taking the first n of the distinct elements that satisfy a condition gives the first n such elements in first-seen order: fewer than n only when all are listed, and every one left out first occurs after each listed one. |
| Seqs.FilterMultiplicity | ai_contributor_summaries/ui/filters.py:228-294 | A list comprehension keeps every copy of an accepted element and no copy of a rejected one. |
| Counter.CounterMap | ai_contributor_summaries/analytics/insights_engine.py:259-264 | `dict(Counter(s))` is keyed by exactly the elements of s, and each value is the positive occurrence count. |
| Counter.CounterMapPermutation | ai_contributor_summaries/analytics/insights_engine.py:85-102 | A counter does not depend on the order of what it counts. |
| Counter.CountsSumToLength | ai_contributor_summaries/analytics/insights_engine.py:246-247 | The counts add up to the number of counted elements. |
| Sorting.SortBy | ai_contributor_summaries/analytics/insights_engine.py:289-290 | Python's `sorted` is a sorted permutation that keeps, for every key value, the input order of the elements with that key (stability). |
| Sorting.TopKeepsInputOrder | ai_contributor_summaries/analytics/insights_engine.py:290-296 | The first n of a stable sort list no element more often than the input does, and for every key the listed elements of that key are the first elements of that key in the input, in input order. |
| Sorting.TopDominates | ai_contributor_summaries/analytics/insights_engine.py:131-133 | Of `sorted(...)[:n]`, nothing left out needed to precede anything kept. |
| Strings.SplitAtSpace | ai_contributor_summaries/ui/filters.py:357-359 | `split()` at a whitespace character splits the word list there. |
| Strings.SplitWord | ai_contributor_summaries/ui/filters.py:372-374 | A non-empty string without whitespace is one word. |
| Strings.JoinContainsEach | ai_contributor_summaries/ui/filters.py:350-355 | Each joined item occurs in the joined text. |
| Strings.LowerIdempotent | ai_contributor_summaries/ui/filters.py:231-236 | Lower-casing twice is lower-casing once. |
| Strings.LessTransitive | ai_contributor_summaries/analytics/insights_engine.py:210 | String `<` is transitive (with LessIrreflexive and LessTotal: a strict total order). |
| Fixture.OverviewOfTeam | ai_contributor_summaries/tests/test_insights_engine.py:96-102 | For the sample team: 3 contributors, 175 commits, 35 issues. |
| Fixture.ReactIsATopSkill | ai_contributor_summaries/tests/test_insights_engine.py:119-122 | React is a top skill with count 2. |
| Fixture.ProjectOneActivity | ai_contributor_summaries/tests/test_insights_engine.py:133-136 | project1 aggregates 90 commits, 18 issues and 2 rows (alice and bob), and that aggregate is listed among the most active repositories. |
| Fixture.SegmentsOfTeam | ai_contributor_summaries/tests/test_insights_engine.py:146-153 | alice is a power user, bob an active contributor and charlie a regular contributor. |
| Fixture.AliceAndBobCollaborate | ai_contributor_summaries/tests/test_insights_engine.py:163-168 | The pair (alice, bob) is counted once, no counted pair involves charlie, and ((alice, bob), 1) is among the top collaborations. |
| Fixture.ReactIsAPopularTechnology | ai_contributor_summaries/tests/test_insights_engine.py:178-181 | React is a popular technology with count 2. |
| Fixture.AliceIsMostProductive | ai_contributor_summaries/tests/test_insights_engine.py:191-194 | alice ranks first, with 20.0 commits per repository. |
| Fixture.AliceReport | ai_contributor_summaries/tests/test_insights_engine.py:209-236 | alice's report has activity level "high", 100 commits, 20 issues, 5 repositories and 20.0 commits per repository, with Python among the skills and Backend among the expertise areas; an unknown username gives no report. |

## Left out

- The `render_*` sidebar methods, `generate_comprehensive_insights` (a dictionary of the other results), logging and all Streamlit I/O. They are presentation or plumbing with no logic of their own.
- `round(x, 2)` and `round(x, 3)`: averages, percentages and percentiles are exact rationals (`real`). Python floats and their rounding are not modelled.
- `repo_activity.describe()` (`repository_activity_distribution`): the pandas summary statistics are left out.
- Overview.GetOverviewMetrics: `value_counts()` skips missing levels and orders its result by count. The model's histogram is a map, so it has no order, and every record has a level.
- Repositories.MostActiveRepositories: pandas' `sort_values` is not stable. The model sorts stably, and the contract states only facts that hold whatever order ties take.
- Repositories.AnalyzeRepositoryPatterns: `groupby('repository_name')` orders its groups by name, and `to_dict('index')` keys the most active repositories by name. The model keeps the groups in first-seen order as a list. Only the order of ties among the most active repositories depends on this, and no contract states that order.
- Segments.SegmentContributors: the source's `segments` and `segment_statistics` dictionaries list their segments in the order each segment first occurs. The model's maps have no key order; their keys, member lists and statistics are modelled in full.
- Collaboration.AnalyzeCollaborationPatterns: Python iterates a `set` in hash order. The model lists a repository's contributors in first-seen order. Pair counts, keys and scores do not depend on that order; only the order of ties in the top lists does.
- Strings.Lower: `str.lower()` is modelled on ASCII letters only, and `str.split()` on ASCII whitespace only. Unicode case mapping and Unicode spaces are not modelled.
- Records: a key that is absent reads as its default; a value of the wrong type (the `isinstance(..., list)` checks, `dropna()`) is not modelled, since every field is typed.
- Records: where the engine reads a DataFrame column (`contributor_df['total_commits'].sum()`, `['repositories_count'].mean()`, `value_counts()`, `groupby(...).agg(...)`, `iterrows()` with `get`), a key missing from some records is NaN, not the default. pandas skips NaN in sums, means and counts, so a mean's denominator shrinks. A NaN-valued `get` returns NaN, which fails `isinstance(..., list)`: such a contributor's skills are skipped and the contributor is left out of `skill_by_contributor` (insights_engine.py lines 75-82). Every record in the model has every field, so these NaN paths are not modelled.
- Fixture.ReactIsAPopularTechnology: the test's `technology_adoption_rate` is stated through the occurrence count (`Count(..., "React") == 2`), not as a literal map.
- Fixture: the tests' rounded figures (3.33, 58.33, 11.67), the total of 8 unique skills and the total of 3 repositories are not restated. The general contracts give the exact values.
- Recommendations.GenerateRecommendations: the sentences are modelled verbatim, but their contracts state structure (counts, and which names each sentence contains), not full text.
- Skills.AnalyzeSkillDistribution: avgSkillsPerContributor is stated exactly only for unique usernames (Skills.AverageSkillsWithUniqueUsernames). With repeated usernames the dictionary keeps the last record, as the model does, but no closed form is stated.

Places where the code and its own comments or labels disagree (the model follows the code):

- The occasional segment's criterion text says "Less than 20 commits". The code also requires no repository (`Segments.OccasionalMeansNoRepository`).
- The emerging-technology comment speaks of "less than 10% of repos", but the code counts occurrences across rows, not repositories (`Technology.OccurrencesCoverRepositories`).
- The sidebar offers "Contributor Count" sorts and a contributor-count range, but `_sort_repositories` ignores those options (`Filters.ContributorCountSortIsNoOp`) and `apply_repository_filters` never reads the range (`Filters.ContributorRangeIgnored`).

Modelling choices where the code leaves room (the model follows the code):

- Repositories are grouped by `repository_name`, the display label, everywhere in the engine, not by the stable `repository_id`. Two repositories with one display name are merged.
- Duplicate rows for one (contributor, repository) pair are not deduplicated. Each one adds to that repository's `contributor_count`, which counts rows (`Repositories.ActivityRowsAreGroups`).
- A skill listed twice by one contributor counts twice: the code flattens the lists and then counts.
- The engine iterates a repository's contributor set in hash order, which the model cannot reproduce. The model lists the contributors in first-seen order.
- A repository's score `k * (k - 1) // 2` is computed as the sum 0 + 1 + ... + (k - 1). `Collaboration.PairCountFormula` proves the two equal for every k.

## Findings

| source | as written | input that shows it | evidently intended | confidence | as-written member | corrected member |
|---|---|---|---|---|---|---|
| ai_contributor_summaries/analytics/insights_engine.py:20-21,362,369 | An empty list becomes a `DataFrame()` with no columns, so `contributor_df['username']` and `repo_work_df['contributor_id']` raise `KeyError` | no contributors and any username; or the contributor `alice` with no repo-work rows | `{}` for an unknown or absent contributor; an empty repository breakdown when there are no rows | high, not executed | Report.GenerateContributorReportAsWritten (Report.EmptyContributorsFail, Report.NoRowsFail) | Report.GenerateContributorReport (Report.AsWrittenAgreesWhenItSucceeds) |
