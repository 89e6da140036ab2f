/** `AdvancedFilters`: the sidebar's filter settings applied to contributor and
    repository lists as a sequence of list comprehensions, an optional sort,
    and a one-line summary of the active filters. */
module Filters {
  import opened Wrappers
  import opened Seqs
  import opened Strings
  import opened Sorting
  import opened Records

  /** The settings mapping. An absent key reads like its falsy value: the
      empty string, the empty list, or `None` for a range (a range tuple is
      truthy even when it is `(0, 0)`). */
  datatype FilterSettings = FilterSettings(
    searchText: string,
    activityLevels: seq<string>,
    commitRange: Option<(int, int)>,
    repoRange: Option<(int, int)>,
    requiredSkills: seq<string>,
    anySkills: seq<string>,
    languages: seq<string>,
    expertiseAreas: seq<string>,
    contributionStyles: seq<string>,
    contributorRange: Option<(int, int)>,
    technologies: seq<string>,
    contributionTypes: seq<string>,
    sortBy: string)

  const NoFilters := FilterSettings("", [], None, None, [], [], [], [], [], None, [], [], "")

  // ---- staged filtering ----

  /** Every stage accepts `x`. */
  predicate AllOf<T>(ps: seq<T -> bool>, x: T)
  {
    |ps| == 0 || (ps[0](x) && AllOf(ps[1..], x))
  }

  /** The stages applied one after another, each a list comprehension over
      the previous one's result. */
  function RunStages<T(!new)>(s: seq<T>, ps: seq<T -> bool>): seq<T>
    decreases |ps|
  {
    if |ps| == 0 then s else RunStages(Filter(s, ps[0]), ps[1..])
  }

  /** One pass keeping the elements every stage accepts, in order. */
  function SelectAll<T(!new)>(s: seq<T>, ps: seq<T -> bool>): (r: seq<T>)
    ensures multiset(r) <= multiset(s)
    ensures forall x :: x in r <==> x in s && AllOf(ps, x)
  {
    if |s| == 0 then []
    else
      assert s == [s[0]] + s[1..];
      (if AllOf(ps, s[0]) then [s[0]] else []) + SelectAll(s[1..], ps)
  }

  lemma SelectCons<T(!new)>(t: seq<T>, ps: seq<T -> bool>)
    requires |t| > 0
    ensures SelectAll(t, ps) == (if AllOf(ps, t[0]) then [t[0]] else []) + SelectAll(t[1..], ps)
  {
  }

  lemma FilterCons<T(!new)>(s: seq<T>, p: T -> bool)
    requires |s| > 0
    ensures Filter(s, p) == (if p(s[0]) then [s[0]] else []) + Filter(s[1..], p)
  {
  }

  lemma {:induction false} SelectAfterFilter<T(!new)>(s: seq<T>, p: T -> bool, ps: seq<T -> bool>)
    ensures SelectAll(Filter(s, p), ps) == SelectAll(s, [p] + ps)
  {
    if |s| > 0 {
      SelectAfterFilter(s[1..], p, ps);
      AllOfStage(true, p, ps, s[0]);
      assert When(true, p) == [p];
      SelectCons(s, [p] + ps);
      FilterCons(s, p);
      var t := Filter(s[1..], p);
      if p(s[0]) {
        assert ([s[0]] + t)[0] == s[0] && ([s[0]] + t)[1..] == t;
        SelectCons([s[0]] + t, ps);
      } else {
        assert Filter(s, p) == t;
      }
    }
  }

  /** A selection by stages whose conjunction is `p` is the filter by `p`. */
  lemma {:induction false} SelectIsFilter<T(!new)>(s: seq<T>, ps: seq<T -> bool>, p: T -> bool)
    requires forall x :: AllOf(ps, x) <==> p(x)
    ensures SelectAll(s, ps) == Filter(s, p)
  {
    if |s| > 0 {
      SelectIsFilter(s[1..], ps, p);
    }
  }

  lemma {:induction false} FilterSame<T(!new)>(s: seq<T>, p: T -> bool, q: T -> bool)
    requires forall x :: p(x) == q(x)
    ensures Filter(s, p) == Filter(s, q)
  {
    if |s| > 0 {
      FilterSame(s[1..], p, q);
    }
  }

  /** Filtering stage by stage equals filtering once by the conjunction of the
      stages: order is kept and only rejected elements are dropped. */
  lemma {:induction false} StagesAreOnePass<T(!new)>(s: seq<T>, ps: seq<T -> bool>)
    ensures RunStages(s, ps) == SelectAll(s, ps)
    decreases |ps|
  {
    if |ps| == 0 {
      SelectNothing(s);
    } else {
      StagesAreOnePass(Filter(s, ps[0]), ps[1..]);
      SelectAfterFilter(s, ps[0], ps[1..]);
      assert [ps[0]] + ps[1..] == ps;
    }
  }

  lemma {:induction false} SelectNothing<T(!new)>(s: seq<T>)
    ensures SelectAll(s, []) == s
  {
    if |s| > 0 {
      SelectNothing(s[1..]);
      assert s == [s[0]] + s[1..];
    }
  }

  /** The stage for one setting: present only when the setting is truthy. */
  function When<T>(active: bool, p: T -> bool): seq<T -> bool>
  {
    if active then [p] else []
  }

  lemma AllOfWhen<T>(active: bool, p: T -> bool, x: T)
    ensures AllOf(When(active, p), x) <==> !active || p(x)
  {
    if active {
      assert When(active, p)[1..] == [];
    }
  }

  /** One optional stage in front of the rest. */
  lemma AllOfStage<T>(active: bool, p: T -> bool, rest: seq<T -> bool>, x: T)
    ensures AllOf(When(active, p) + rest, x) <==> (!active || p(x)) && AllOf(rest, x)
  {
    if active {
      assert ([p] + rest)[0] == p && ([p] + rest)[1..] == rest;
    } else {
      assert When(active, p) + rest == rest;
    }
  }

  // ---- text search ----

  /** Every whitespace-separated term of the (already lower-cased) query
      occurs in the lower-cased text. */
  predicate TermsMatch(text: string, query: string)
  {
    forall t :: t in Split(query) ==> Contains(Lower(text), t)
  }

  /** The fields searched for a contributor, joined by spaces. */
  function ContributorText(c: Contributor): string
  {
    Join(" ", [c.username, c.summary, Join(" ", c.skills), Join(" ", c.expertiseAreas),
               Join(" ", c.primaryLanguages)])
  }

  /** The fields searched for a repository row, joined by spaces. */
  function RepositoryText(w: RepoWork): string
  {
    Join(" ", [w.repositoryName, w.repositoryId, w.summary, Join(" ", w.technologies)])
  }

  predicate TextSearchMatch(c: Contributor, query: string)
  {
    TermsMatch(ContributorText(c), query)
  }

  predicate RepoTextSearchMatch(w: RepoWork, query: string)
  {
    TermsMatch(RepositoryText(w), query)
  }

  /** A query of blanks has no terms and so matches everything. */
  lemma BlankQueryMatchesAll(text: string, query: string)
    requires forall i :: 0 <= i < |query| ==> IsSpace(query[i])
    ensures TermsMatch(text, query)
  {
    BlankSplit(query, "");
  }

  lemma {:induction false} BlankSplit(s: string, word: string)
    requires forall i :: 0 <= i < |s| ==> IsSpace(s[i])
    requires |word| == 0
    ensures SplitFrom(s, word) == []
  {
    if |s| > 0 {
      BlankSplit(s[1..], "");
    }
  }

  /** A query of one word matches exactly when the word occurs. */
  lemma OneWordQuery(text: string, w: string)
    requires |w| > 0 && NoSpace(w)
    ensures TermsMatch(text, w) <==> Contains(Lower(text), w)
  {
    SplitWord(w);
  }

  /** Terms separated by a blank must all match: the query is a conjunction. */
  lemma QueryIsConjunction(text: string, a: string, c: char, b: string)
    requires IsSpace(c)
    ensures TermsMatch(text, a + [c] + b) <==> TermsMatch(text, a) && TermsMatch(text, b)
  {
    SplitAtSpace(a, c, b);
  }

  /** A query word found in the username, ignoring ASCII case, finds the
      contributor. */
  lemma UsernameIsSearched(c: Contributor, w: string)
    requires |w| > 0 && NoSpace(w)
    requires Contains(Lower(c.username), w)
    ensures TextSearchMatch(c, w)
  {
    UsernameInText(c, w);
    OneWordQuery(ContributorText(c), w);
  }

  lemma UsernameInText(c: Contributor, w: string)
    requires Contains(Lower(c.username), w)
    ensures Contains(Lower(ContributorText(c)), w)
  {
    var tail := [c.summary, Join(" ", c.skills), Join(" ", c.expertiseAreas), Join(" ", c.primaryLanguages)];
    assert [c.username, c.summary, Join(" ", c.skills), Join(" ", c.expertiseAreas),
            Join(" ", c.primaryLanguages)] == [c.username] + tail;
    JoinFirst(" ", c.username, tail);
    ContainsLowerPrefix(c.username, " " + Join(" ", tail), w);
  }

  // ---- contributor filters ----

  /** Lower-cased `x` is among the lower-cased `xs`. */
  predicate InLowered(x: string, xs: seq<string>)
  {
    Lower(x) in Map(xs, Lower)
  }

  predicate InRange(range: (int, int), x: int)
  {
    range.0 <= x <= range.1
  }

  /** Python's `all(s in have for s in need)`. */
  predicate HasAll(need: seq<string>, have: seq<string>)
  {
    forall s :: s in need ==> s in have
  }

  /** Python's `any(s in have for s in want)`. */
  predicate Overlaps(want: seq<string>, have: seq<string>)
  {
    exists s :: s in want && s in have
  }

  function SearchStage(query: string): Contributor -> bool
  {
    (c: Contributor) => TextSearchMatch(c, query)
  }

  function ActivityStage(levels: seq<string>): Contributor -> bool
  {
    (c: Contributor) => InLowered(c.activityLevel, levels)
  }

  function CommitRangeStage(range: (int, int)): Contributor -> bool
  {
    (c: Contributor) => InRange(range, c.totalCommits)
  }

  function RepoRangeStage(range: (int, int)): Contributor -> bool
  {
    (c: Contributor) => InRange(range, c.repositoriesCount)
  }

  function AllSkillsStage(skills: seq<string>): Contributor -> bool
  {
    (c: Contributor) => HasAll(skills, c.skills)
  }

  function AnySkillStage(skills: seq<string>): Contributor -> bool
  {
    (c: Contributor) => Overlaps(skills, c.skills)
  }

  function LanguageStage(languages: seq<string>): Contributor -> bool
  {
    (c: Contributor) => Overlaps(languages, c.primaryLanguages)
  }

  function ExpertiseStage(areas: seq<string>): Contributor -> bool
  {
    (c: Contributor) => Overlaps(areas, c.expertiseAreas)
  }

  function StyleStage(styles: seq<string>): Contributor -> bool
  {
    (c: Contributor) => InLowered(c.contributionStyle, styles)
  }

  function RangeOr(r: Option<(int, int)>): (int, int)
  {
    if r.Some? then r.value else (0, 0)
  }

  /** The active contributor stages, in the order the code applies them. */
  function ContributorStages(f: FilterSettings): seq<Contributor -> bool>
  {
    When(f.searchText != "", SearchStage(Lower(f.searchText))) +
    (When(f.activityLevels != [], ActivityStage(f.activityLevels)) +
    (When(f.commitRange.Some?, CommitRangeStage(RangeOr(f.commitRange))) +
    (When(f.repoRange.Some?, RepoRangeStage(RangeOr(f.repoRange))) +
     TagStages(f))))
  }

  /** The last five stages, on skills, languages, expertise and style. */
  function TagStages(f: FilterSettings): seq<Contributor -> bool>
  {
    When(f.requiredSkills != [], AllSkillsStage(f.requiredSkills)) +
    (When(f.anySkills != [], AnySkillStage(f.anySkills)) +
    (When(f.languages != [], LanguageStage(f.languages)) +
    (When(f.expertiseAreas != [], ExpertiseStage(f.expertiseAreas)) +
     When(f.contributionStyles != [], StyleStage(f.contributionStyles)))))
  }

  /** A contributor passes every active setting (reference definition). */
  predicate Passes(f: FilterSettings, c: Contributor)
  {
    && (f.searchText != "" ==> TextSearchMatch(c, Lower(f.searchText)))
    && (f.activityLevels != [] ==> InLowered(c.activityLevel, f.activityLevels))
    && (f.commitRange.Some? ==> InRange(f.commitRange.value, c.totalCommits))
    && (f.repoRange.Some? ==> InRange(f.repoRange.value, c.repositoriesCount))
    && PassesTags(f, c)
  }

  predicate PassesTags(f: FilterSettings, c: Contributor)
  {
    && HasAll(f.requiredSkills, c.skills)
    && (f.anySkills != [] ==> Overlaps(f.anySkills, c.skills))
    && (f.languages != [] ==> Overlaps(f.languages, c.primaryLanguages))
    && (f.expertiseAreas != [] ==> Overlaps(f.expertiseAreas, c.expertiseAreas))
    && (f.contributionStyles != [] ==> InLowered(c.contributionStyle, f.contributionStyles))
  }

  lemma TagStagesMeanPassesTags(f: FilterSettings, c: Contributor)
    ensures AllOf(TagStages(f), c) <==> PassesTags(f, c)
  {
    var t9 := When(f.contributionStyles != [], StyleStage(f.contributionStyles));
    var t8 := When(f.expertiseAreas != [], ExpertiseStage(f.expertiseAreas)) + t9;
    var t7 := When(f.languages != [], LanguageStage(f.languages)) + t8;
    var t6 := When(f.anySkills != [], AnySkillStage(f.anySkills)) + t7;
    AllOfWhen(f.contributionStyles != [], StyleStage(f.contributionStyles), c);
    AllOfStage(f.expertiseAreas != [], ExpertiseStage(f.expertiseAreas), t9, c);
    AllOfStage(f.languages != [], LanguageStage(f.languages), t8, c);
    AllOfStage(f.anySkills != [], AnySkillStage(f.anySkills), t7, c);
    AllOfStage(f.requiredSkills != [], AllSkillsStage(f.requiredSkills), t6, c);
  }

  lemma ContributorStagesMeanPasses(f: FilterSettings, c: Contributor)
    ensures AllOf(ContributorStages(f), c) <==> Passes(f, c)
  {
    var t5 := TagStages(f);
    var t4 := When(f.repoRange.Some?, RepoRangeStage(RangeOr(f.repoRange))) + t5;
    var t3 := When(f.commitRange.Some?, CommitRangeStage(RangeOr(f.commitRange))) + t4;
    var t2 := When(f.activityLevels != [], ActivityStage(f.activityLevels)) + t3;
    TagStagesMeanPassesTags(f, c);
    AllOfStage(f.repoRange.Some?, RepoRangeStage(RangeOr(f.repoRange)), t5, c);
    AllOfStage(f.commitRange.Some?, CommitRangeStage(RangeOr(f.commitRange)), t4, c);
    AllOfStage(f.activityLevels != [], ActivityStage(f.activityLevels), t3, c);
    AllOfStage(f.searchText != "", SearchStage(Lower(f.searchText)), t2, c);
  }

  // ---- sorting ----

  function UsernameKey(c: Contributor): Key { Text(Lower(c.username)) }
  function TotalCommitsKey(c: Contributor): Key { Num(c.totalCommits as real) }
  function RepositoryCountKey(c: Contributor): Key { Num(c.repositoriesCount as real) }

  /** `activity_order.get(level.lower(), 0)`. */
  function ActivityRank(level: string): nat
  {
    var l := Lower(level);
    if l == "high" || l == "active" then 3
    else if l == "medium" then 2
    else if l == "low" then 1
    else 0
  }

  function ActivityKey(c: Contributor): Key { Num(ActivityRank(c.activityLevel) as real) }

  const ContributorSortOptions: set<string> := {
    "Username (A-Z)", "Username (Z-A)", "Total Commits (High-Low)", "Total Commits (Low-High)",
    "Repository Count (High-Low)", "Repository Count (Low-High)", "Activity Level" }

  /** The key and direction of a contributor sort option. */
  function ContributorOrder(sortBy: string): (Contributor -> Key, bool)
  {
    if sortBy == "Username (A-Z)" then (UsernameKey, false)
    else if sortBy == "Username (Z-A)" then (UsernameKey, true)
    else if sortBy == "Total Commits (High-Low)" then (TotalCommitsKey, true)
    else if sortBy == "Total Commits (Low-High)" then (TotalCommitsKey, false)
    else if sortBy == "Repository Count (High-Low)" then (RepositoryCountKey, true)
    else if sortBy == "Repository Count (Low-High)" then (RepositoryCountKey, false)
    else (ActivityKey, true)
  }

  /** `_sort_contributors`: a stable sort for a known option, the list
      unchanged for any other. */
  function SortContributors(cs: seq<Contributor>, sortBy: string): (r: seq<Contributor>)
    ensures multiset(r) == multiset(cs)
    ensures sortBy !in ContributorSortOptions ==> r == cs
    ensures sortBy in ContributorSortOptions ==>
              var (key, desc) := ContributorOrder(sortBy);
              Sorted(r, key, desc) && forall k :: WithKey(r, key, k) == WithKey(cs, key, k)
  {
    if sortBy in ContributorSortOptions then
      var (key, desc) := ContributorOrder(sortBy);
      SortBy(cs, key, desc)
    else cs
  }

  /** The commit orders compare total commits. */
  lemma CommitOrders(cs: seq<Contributor>)
    ensures var r := SortContributors(cs, "Total Commits (High-Low)");
      forall i, j :: 0 <= i < j < |r| ==> r[i].totalCommits >= r[j].totalCommits
    ensures var r := SortContributors(cs, "Total Commits (Low-High)");
      forall i, j :: 0 <= i < j < |r| ==> r[i].totalCommits <= r[j].totalCommits
  {
  }

  /** The repository-count orders compare repository counts. */
  lemma RepositoryCountOrders(cs: seq<Contributor>)
    ensures var r := SortContributors(cs, "Repository Count (High-Low)");
      forall i, j :: 0 <= i < j < |r| ==> r[i].repositoriesCount >= r[j].repositoriesCount
    ensures var r := SortContributors(cs, "Repository Count (Low-High)");
      forall i, j :: 0 <= i < j < |r| ==> r[i].repositoriesCount <= r[j].repositoriesCount
  {
  }

  /** "Activity Level" puts high and active first, then medium, low, and
      anything else. */
  lemma ActivityOrder(cs: seq<Contributor>)
    ensures var r := SortContributors(cs, "Activity Level");
      forall i, j :: 0 <= i < j < |r| ==> ActivityRank(r[i].activityLevel) >= ActivityRank(r[j].activityLevel)
  {
  }

  /** The username orders compare lower-cased usernames. */
  lemma UsernameOrders(cs: seq<Contributor>)
    ensures var r := SortContributors(cs, "Username (A-Z)");
      forall i, j :: 0 <= i < j < |r| ==> !Less(Lower(r[j].username), Lower(r[i].username))
    ensures var r := SortContributors(cs, "Username (Z-A)");
      forall i, j :: 0 <= i < j < |r| ==> !Less(Lower(r[i].username), Lower(r[j].username))
  {
  }

  /** Contributors with the same activity rank keep their relative order. */
  lemma ActivitySortIsStable(cs: seq<Contributor>, rank: nat)
    ensures WithKey(SortContributors(cs, "Activity Level"), ActivityKey, Num(rank as real))
         == WithKey(cs, ActivityKey, Num(rank as real))
  {
  }

  // ---- applying the contributor filters ----

  function Passing(f: FilterSettings): Contributor -> bool
  {
    (c: Contributor) => Passes(f, c)
  }

  /** The staged filtering is the filter by `Passes`, in input order. */
  lemma ContributorStagesAreFilter(cs: seq<Contributor>, f: FilterSettings)
    ensures RunStages(cs, ContributorStages(f)) == Filter(cs, Passing(f))
  {
    StagesAreOnePass(cs, ContributorStages(f));
    forall c
      ensures AllOf(ContributorStages(f), c) <==> Passing(f)(c)
    {
      ContributorStagesMeanPasses(f, c);
    }
    SelectIsFilter(cs, ContributorStages(f), Passing(f));
  }

  lemma ContributorsKept(cs: seq<Contributor>, f: FilterSettings)
    ensures multiset(RunStages(cs, ContributorStages(f))) <= multiset(cs)
    ensures forall c :: c in RunStages(cs, ContributorStages(f)) <==> c in cs && Passes(f, c)
  {
    StagesAreOnePass(cs, ContributorStages(f));
    forall c
      ensures AllOf(ContributorStages(f), c) <==> Passes(f, c)
    {
      ContributorStagesMeanPasses(f, c);
    }
  }

  /** `apply_contributor_filters`: the contributors passing every active
      setting, each copy kept, in input order or sorted by the chosen
      option. */
  function ApplyContributorFilters(cs: seq<Contributor>, f: FilterSettings): (r: seq<Contributor>)
    ensures |cs| == 0 ==> r == []
    ensures forall c :: multiset(r)[c] == if Passes(f, c) then multiset(cs)[c] else 0
    ensures forall c :: c in r <==> c in cs && Passes(f, c)
    ensures f.sortBy == "" ==> r == Filter(cs, Passing(f))
    ensures f.sortBy != "" ==> r == SortContributors(Filter(cs, Passing(f)), f.sortBy)
  {
    if |cs| == 0 then []
    else
      var kept := RunStages(cs, ContributorStages(f));
      ContributorsKept(cs, f);
      ContributorStagesAreFilter(cs, f);
      var r := if f.sortBy != "" then SortContributors(kept, f.sortBy) else kept;
      PermutationMembers(r, kept);
      assert forall c :: multiset(r)[c] == multiset(kept)[c];
      forall c
        ensures multiset(r)[c] == if Passes(f, c) then multiset(cs)[c] else 0
      {
        FilterMultiplicity(cs, Passing(f), c);
      }
      r
  }

  /** Without a sort option the survivors keep their input order: the result
      is the one-pass selection by `Passes`. */
  lemma FilteredInInputOrder(cs: seq<Contributor>, f: FilterSettings)
    requires f.sortBy == "" || f.sortBy !in ContributorSortOptions
    ensures ApplyContributorFilters(cs, f) == SelectAll(cs, ContributorStages(f))
  {
    StagesAreOnePass(cs, ContributorStages(f));
  }

  /** The empty settings change nothing. */
  lemma NoFiltersIsIdentity(cs: seq<Contributor>)
    ensures ApplyContributorFilters(cs, NoFilters) == cs
  {
    assert ContributorStages(NoFilters) == [];
  }

  /** The query is lower-cased before matching, so its case does not matter. */
  lemma SearchIgnoresQueryCase(cs: seq<Contributor>, f: FilterSettings)
    ensures ApplyContributorFilters(cs, f) == ApplyContributorFilters(cs, f.(searchText := Lower(f.searchText)))
  {
    var g := f.(searchText := Lower(f.searchText));
    LowerIdempotent(f.searchText);
    assert forall c :: Passing(f)(c) == Passing(g)(c);
    FilterSame(cs, Passing(f), Passing(g));
  }

  // ---- repository filters ----

  function RepoSearchStage(query: string): RepoWork -> bool
  {
    (w: RepoWork) => RepoTextSearchMatch(w, query)
  }

  function RepoCommitStage(range: (int, int)): RepoWork -> bool
  {
    (w: RepoWork) => InRange(range, w.commitCount)
  }

  function TechnologyStage(techs: seq<string>): RepoWork -> bool
  {
    (w: RepoWork) => Overlaps(techs, w.technologies)
  }

  function TypeStage(types: seq<string>): RepoWork -> bool
  {
    (w: RepoWork) => InLowered(w.contributionType, types)
  }

  /** The active repository stages; the contributor-count range is not one
      of them. */
  function RepositoryStages(f: FilterSettings): seq<RepoWork -> bool>
  {
    When(f.searchText != "", RepoSearchStage(Lower(f.searchText))) +
    (When(f.commitRange.Some?, RepoCommitStage(RangeOr(f.commitRange))) +
    (When(f.technologies != [], TechnologyStage(f.technologies)) +
     When(f.contributionTypes != [], TypeStage(f.contributionTypes))))
  }

  predicate RepoPasses(f: FilterSettings, w: RepoWork)
  {
    && (f.searchText != "" ==> RepoTextSearchMatch(w, Lower(f.searchText)))
    && (f.commitRange.Some? ==> InRange(f.commitRange.value, w.commitCount))
    && (f.technologies != [] ==> Overlaps(f.technologies, w.technologies))
    && (f.contributionTypes != [] ==> InLowered(w.contributionType, f.contributionTypes))
  }

  lemma RepositoryStagesMeanPasses(f: FilterSettings, w: RepoWork)
    ensures AllOf(RepositoryStages(f), w) <==> RepoPasses(f, w)
  {
    var t4 := When(f.contributionTypes != [], TypeStage(f.contributionTypes));
    var t3 := When(f.technologies != [], TechnologyStage(f.technologies)) + t4;
    var t2 := When(f.commitRange.Some?, RepoCommitStage(RangeOr(f.commitRange))) + t3;
    AllOfWhen(f.contributionTypes != [], TypeStage(f.contributionTypes), w);
    AllOfStage(f.technologies != [], TechnologyStage(f.technologies), t4, w);
    AllOfStage(f.commitRange.Some?, RepoCommitStage(RangeOr(f.commitRange)), t3, w);
    AllOfStage(f.searchText != "", RepoSearchStage(Lower(f.searchText)), t2, w);
  }

  function RepoNameKey(w: RepoWork): Key { Text(Lower(w.repositoryName)) }
  function CommitCountKey(w: RepoWork): Key { Num(w.commitCount as real) }
  function LastContributionKey(w: RepoWork): Key { Text(w.lastContribution) }

  /** The repository options that have a sort; the contributor-count options
      offered in the sidebar are not among them. */
  const RepositorySortOptions: set<string> := {
    "Repository Name (A-Z)", "Repository Name (Z-A)", "Commit Count (High-Low)",
    "Commit Count (Low-High)", "Recent Activity" }

  function RepositoryOrder(sortBy: string): (RepoWork -> Key, bool)
  {
    if sortBy == "Repository Name (A-Z)" then (RepoNameKey, false)
    else if sortBy == "Repository Name (Z-A)" then (RepoNameKey, true)
    else if sortBy == "Commit Count (High-Low)" then (CommitCountKey, true)
    else if sortBy == "Commit Count (Low-High)" then (CommitCountKey, false)
    else (LastContributionKey, true)
  }

  /** `_sort_repositories`. */
  function SortRepositories(ws: seq<RepoWork>, sortBy: string): (r: seq<RepoWork>)
    ensures multiset(r) == multiset(ws)
    ensures sortBy !in RepositorySortOptions ==> r == ws
    ensures sortBy in RepositorySortOptions ==>
              var (key, desc) := RepositoryOrder(sortBy);
              Sorted(r, key, desc) && forall k :: WithKey(r, key, k) == WithKey(ws, key, k)
  {
    if sortBy in RepositorySortOptions then
      var (key, desc) := RepositoryOrder(sortBy);
      SortBy(ws, key, desc)
    else ws
  }

  /** Sorting by contributor count, though offered, leaves the list as it is. */
  lemma ContributorCountSortIsNoOp(ws: seq<RepoWork>)
    ensures SortRepositories(ws, "Contributor Count (High-Low)") == ws
    ensures SortRepositories(ws, "Contributor Count (Low-High)") == ws
  {
  }

  lemma RepositoryOrders(ws: seq<RepoWork>)
    ensures var r := SortRepositories(ws, "Commit Count (High-Low)");
      forall i, j :: 0 <= i < j < |r| ==> r[i].commitCount >= r[j].commitCount
    ensures var r := SortRepositories(ws, "Commit Count (Low-High)");
      forall i, j :: 0 <= i < j < |r| ==> r[i].commitCount <= r[j].commitCount
    ensures var r := SortRepositories(ws, "Recent Activity");
      forall i, j :: 0 <= i < j < |r| ==> !Less(r[i].lastContribution, r[j].lastContribution)
  {
  }

  lemma RepositoriesKept(ws: seq<RepoWork>, f: FilterSettings)
    ensures multiset(RunStages(ws, RepositoryStages(f))) <= multiset(ws)
    ensures forall w :: w in RunStages(ws, RepositoryStages(f)) <==> w in ws && RepoPasses(f, w)
  {
    StagesAreOnePass(ws, RepositoryStages(f));
    forall w
      ensures AllOf(RepositoryStages(f), w) <==> RepoPasses(f, w)
    {
      RepositoryStagesMeanPasses(f, w);
    }
  }

  function RepoPassing(f: FilterSettings): RepoWork -> bool
  {
    (w: RepoWork) => RepoPasses(f, w)
  }

  /** The staged filtering is the filter by `RepoPasses`, in input order. */
  lemma RepositoryStagesAreFilter(ws: seq<RepoWork>, f: FilterSettings)
    ensures RunStages(ws, RepositoryStages(f)) == Filter(ws, RepoPassing(f))
  {
    StagesAreOnePass(ws, RepositoryStages(f));
    forall w
      ensures AllOf(RepositoryStages(f), w) <==> RepoPassing(f)(w)
    {
      RepositoryStagesMeanPasses(f, w);
    }
    SelectIsFilter(ws, RepositoryStages(f), RepoPassing(f));
  }

  /** `apply_repository_filters`: the rows passing every active setting, each
      copy kept, in input order or sorted by the chosen option; the
      contributor-count range is ignored. */
  function ApplyRepositoryFilters(ws: seq<RepoWork>, f: FilterSettings): (r: seq<RepoWork>)
    ensures |ws| == 0 ==> r == []
    ensures forall w :: multiset(r)[w] == if RepoPasses(f, w) then multiset(ws)[w] else 0
    ensures forall w :: w in r <==> w in ws && RepoPasses(f, w)
    ensures f.sortBy == "" ==> r == Filter(ws, RepoPassing(f))
    ensures f.sortBy != "" ==> r == SortRepositories(Filter(ws, RepoPassing(f)), f.sortBy)
  {
    if |ws| == 0 then []
    else
      var kept := RunStages(ws, RepositoryStages(f));
      RepositoriesKept(ws, f);
      RepositoryStagesAreFilter(ws, f);
      var r := if f.sortBy != "" then SortRepositories(kept, f.sortBy) else kept;
      PermutationMembers(r, kept);
      assert forall w :: multiset(r)[w] == multiset(kept)[w];
      forall w
        ensures multiset(r)[w] == if RepoPasses(f, w) then multiset(ws)[w] else 0
      {
        FilterMultiplicity(ws, RepoPassing(f), w);
      }
      r
  }

  /** The contributor-count range has no effect on the result. */
  lemma ContributorRangeIgnored(ws: seq<RepoWork>, f: FilterSettings, range: Option<(int, int)>)
    ensures ApplyRepositoryFilters(ws, f.(contributorRange := range)) == ApplyRepositoryFilters(ws, f)
  {
    assert RepositoryStages(f.(contributorRange := range)) == RepositoryStages(f);
  }

  // ---- summary ----

  /** The parts of the summary, one per truthy key among the seven it reads. */
  function SummaryParts(f: FilterSettings): seq<string>
  {
    (if f.searchText != "" then ["Text: '" + f.searchText + "'"] else []) +
    ((if f.activityLevels != [] then ["Activity: " + Join(", ", f.activityLevels)] else []) +
    ((if f.requiredSkills != [] then ["Required Skills: " + Join(", ", f.requiredSkills)] else []) +
    ((if f.anySkills != [] then ["Any Skills: " + Join(", ", f.anySkills)] else []) +
    ((if f.languages != [] then ["Languages: " + Join(", ", f.languages)] else []) +
    ((if f.expertiseAreas != [] then ["Expertise: " + Join(", ", f.expertiseAreas)] else []) +
     (if f.technologies != [] then ["Technologies: " + Join(", ", f.technologies)] else []))))))
  }

  /** None of the seven keys the summary reads is truthy. */
  predicate NothingToSummarise(f: FilterSettings)
  {
    f.searchText == "" && f.activityLevels == [] && f.requiredSkills == [] && f.anySkills == []
    && f.languages == [] && f.expertiseAreas == [] && f.technologies == []
  }

  /** `get_filter_summary`: a fixed text when no key is set, otherwise the
      parts joined by bars after a fixed prefix. */
  function GetFilterSummary(f: FilterSettings): (r: string)
    ensures r == "No filters active" <==> NothingToSummarise(f)
    ensures !NothingToSummarise(f) ==> r == "Active filters: " + Join(" | ", SummaryParts(f))
  {
    var parts := SummaryParts(f);
    if |parts| == 0 then "No filters active"
    else
      var r := "Active filters: " + Join(" | ", parts);
      assert r[0] == 'A';
      r
  }

  // The labels of the seven keys the summary reads, numbered in the order it
  // reads them.
  const SummaryLabels: seq<string> :=
    ["Text: ", "Activity: ", "Required Skills: ", "Any Skills: ", "Languages: ", "Expertise: ",
     "Technologies: "]

  /** The list behind key `k`; key 0, the search text, is not a list. */
  function KeyValues(f: FilterSettings, k: nat): seq<string>
    requires 1 <= k < 7
  {
    if k == 1 then f.activityLevels
    else if k == 2 then f.requiredSkills
    else if k == 3 then f.anySkills
    else if k == 4 then f.languages
    else if k == 5 then f.expertiseAreas
    else f.technologies
  }

  predicate KeyActive(f: FilterSettings, k: nat)
    requires k < 7
  {
    if k == 0 then f.searchText != "" else KeyValues(f, k) != []
  }

  /** The part for key `k`: its label, then the quoted search text or the
      comma-separated list. */
  function PartFor(f: FilterSettings, k: nat): string
    requires k < 7
  {
    SummaryLabels[k] + (if k == 0 then "'" + f.searchText + "'" else Join(", ", KeyValues(f, k)))
  }

  /** The truthy keys from `k` on, ascending. */
  function ActiveKeysFrom(f: FilterSettings, k: nat): seq<nat>
    requires k <= 7
    decreases 7 - k
  {
    if k == 7 then [] else (if KeyActive(f, k) then [k] else []) + ActiveKeysFrom(f, k + 1)
  }

  function PartsFrom(f: FilterSettings, k: nat): seq<string>
    requires k <= 7
    decreases 7 - k
  {
    if k == 7 then [] else (if KeyActive(f, k) then [PartFor(f, k)] else []) + PartsFrom(f, k + 1)
  }

  lemma SummaryPartsUnrolled(f: FilterSettings)
    ensures SummaryParts(f) == PartsFrom(f, 0)
  {
    assert "Text: " + ("'" + f.searchText + "'") == "Text: '" + f.searchText + "'";
    assert PartsFrom(f, 6) == (if KeyActive(f, 6) then [PartFor(f, 6)] else []);
    assert PartsFrom(f, 5) == (if KeyActive(f, 5) then [PartFor(f, 5)] else []) + PartsFrom(f, 6);
    assert PartsFrom(f, 4) == (if KeyActive(f, 4) then [PartFor(f, 4)] else []) + PartsFrom(f, 5);
    assert PartsFrom(f, 3) == (if KeyActive(f, 3) then [PartFor(f, 3)] else []) + PartsFrom(f, 4);
    assert PartsFrom(f, 2) == (if KeyActive(f, 2) then [PartFor(f, 2)] else []) + PartsFrom(f, 3);
    assert PartsFrom(f, 1) == (if KeyActive(f, 1) then [PartFor(f, 1)] else []) + PartsFrom(f, 2);
  }

  lemma {:induction false} PartsFollowKeys(f: FilterSettings, k: nat)
    requires k <= 7
    ensures |PartsFrom(f, k)| == |ActiveKeysFrom(f, k)|
    ensures forall i :: 0 <= i < |ActiveKeysFrom(f, k)| ==>
              k <= ActiveKeysFrom(f, k)[i] < 7 && PartsFrom(f, k)[i] == PartFor(f, ActiveKeysFrom(f, k)[i])
    decreases 7 - k
  {
    if k < 7 {
      var keys, parts := ActiveKeysFrom(f, k + 1), PartsFrom(f, k + 1);
      PartsFollowKeys(f, k + 1);
      if KeyActive(f, k) {
        assert ActiveKeysFrom(f, k) == [k] + keys;
        assert PartsFrom(f, k) == [PartFor(f, k)] + parts;
      } else {
        assert ActiveKeysFrom(f, k) == keys;
        assert PartsFrom(f, k) == parts;
      }
    }
  }

  lemma {:induction false} KeysAscend(f: FilterSettings, k: nat)
    requires k <= 7
    ensures forall i :: 0 <= i < |ActiveKeysFrom(f, k)| ==> k <= ActiveKeysFrom(f, k)[i] < 7
    ensures forall i, j :: 0 <= i < j < |ActiveKeysFrom(f, k)| ==> ActiveKeysFrom(f, k)[i] < ActiveKeysFrom(f, k)[j]
    decreases 7 - k
  {
    if k < 7 {
      KeysAscend(f, k + 1);
    }
  }

  lemma {:induction false} KeysAreActive(f: FilterSettings, k: nat)
    requires k <= 7
    ensures forall m :: k <= m < 7 ==> (m in ActiveKeysFrom(f, k) <==> KeyActive(f, m))
    decreases 7 - k
  {
    if k < 7 {
      var rest := ActiveKeysFrom(f, k + 1);
      KeysAreActive(f, k + 1);
      KeysAscend(f, k + 1);
      var head := if KeyActive(f, k) then [k] else [];
      assert ActiveKeysFrom(f, k) == head + rest;
      forall m | k <= m < 7
        ensures m in ActiveKeysFrom(f, k) <==> KeyActive(f, m)
      {
        if m == k {
          assert k !in rest;
        } else {
          assert m !in head;
        }
      }
    }
  }

  /** The summary lists one part per truthy key, in the fixed key order:
      search text, activity levels, required skills, any skills, languages,
      expertise areas, technologies. */
  lemma SummaryPartsInKeyOrder(f: FilterSettings)
    ensures var keys := ActiveKeysFrom(f, 0);
      && |SummaryParts(f)| == |keys|
      && (forall i :: 0 <= i < |keys| ==> keys[i] < 7 && SummaryParts(f)[i] == PartFor(f, keys[i]))
      && (forall i, j :: 0 <= i < j < |keys| ==> keys[i] < keys[j])
      && (forall m :: 0 <= m < 7 ==> (m in keys <==> KeyActive(f, m)))
  {
    SummaryPartsUnrolled(f);
    PartsFollowKeys(f, 0);
    KeysAscend(f, 0);
    KeysAreActive(f, 0);
  }

  /** The search text, when set, is quoted in the summary. */
  lemma SummaryQuotesSearchText(f: FilterSettings)
    requires f.searchText != ""
    ensures Contains(GetFilterSummary(f), f.searchText)
  {
    var parts := SummaryParts(f);
    var part := "Text: '" + f.searchText + "'";
    assert parts[0] == part;
    ContainsInContext("Text: '", f.searchText, "'", f.searchText) by {
      assert OccursAt(f.searchText, f.searchText, 0);
    }
    JoinContainsEach(" | ", parts, 0);
    ContainsPart(Join(" | ", parts), part, f.searchText);
    ContainsInContext("Active filters: ", Join(" | ", parts), "", f.searchText);
    assert "Active filters: " + Join(" | ", parts) + "" == GetFilterSummary(f);
  }

  /** A substring of a substring is a substring. */
  lemma ContainsPart(text: string, part: string, t: string)
    requires Contains(text, part) && Contains(part, t)
    ensures Contains(text, t)
  {
    var i :| 0 <= i <= |text| && OccursAt(text, part, i);
    var j :| 0 <= j <= |part| && OccursAt(part, t, j);
    assert text[i + j..i + j + |t|] == part[j..j + |t|] by {
      forall m | i + j <= m < i + j + |t|
        ensures text[m] == part[m - i]
      {
        assert text[i..i + |part|][m - i] == text[m];
      }
    }
    assert OccursAt(text, t, i + j);
  }
}
