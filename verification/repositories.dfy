/** `InsightsEngine.analyze_repository_patterns`: the repo-work rows grouped by
    repository name, the ten most active repositories, the mean number of rows
    per repository and the repositories using the most distinct technologies. */
module Repositories {
  import opened Wrappers
  import opened Seqs
  import opened Sorting
  import opened Counter
  import opened Records

  /** One row of the `groupby('repository_name')` aggregate. */
  datatype RepoActivity = RepoActivity(
    name: string,
    commitCount: int,
    issueCount: int,
    contributorCount: nat)

  datatype RepositoryAnalysis = RepositoryAnalysis(
    totalRepositories: nat,
    repositoryActivity: seq<RepoActivity>,
    mostActiveRepositories: seq<RepoActivity>,
    avgContributorsPerRepo: real,
    mostDiverseRepositories: seq<(string, nat)>)

  function ActivityCommits(g: RepoActivity): int { g.commitCount }
  function ActivityIssues(g: RepoActivity): int { g.issueCount }
  function ActivityRows(g: RepoActivity): int { g.contributorCount }
  function ActivityCommitsKey(g: RepoActivity): Key { Num(g.commitCount as real) }
  function RowOne(w: RepoWork): int { 1 }

  /** Repository names in first-seen order: the groups. */
  function RepoNames(ws: seq<RepoWork>): seq<string>
  {
    Distinct(Map(ws, NameOf))
  }

  /** The rows of repository `n`, in input order. */
  function RowsNamed(ws: seq<RepoWork>, n: string): (r: seq<RepoWork>)
    ensures forall w :: w in r <==> w in ws && w.repositoryName == n
  {
    if |ws| == 0 then []
    else
      (if ws[0].repositoryName == n then [ws[0]] else []) + RowsNamed(ws[1..], n)
  }

  lemma {:induction false} RowsNamedCount(ws: seq<RepoWork>, n: string)
    ensures |RowsNamed(ws, n)| == Count(Map(ws, NameOf), n)
  {
    if |ws| > 0 {
      assert Map(ws, NameOf)[1..] == Map(ws[1..], NameOf);
      RowsNamedCount(ws[1..], n);
    }
  }

  lemma RowsNamedCons(w: RepoWork, rest: seq<RepoWork>, n: string)
    ensures RowsNamed([w] + rest, n) == (if w.repositoryName == n then [w] else []) + RowsNamed(rest, n)
  {
    assert ([w] + rest)[0] == w;
    assert ([w] + rest)[1..] == rest;
  }

  lemma SumCons<T>(x: T, s: seq<T>, f: T -> int)
    ensures Sum([x] + s, f) == f(x) + Sum(s, f)
  {
    assert ([x] + s)[0] == x;
    assert ([x] + s)[1..] == s;
  }

  /** The aggregate row of repository `n`: summed commits and issues and the
      number of rows (`'contributor_id': 'count'`). */
  function Activity(ws: seq<RepoWork>, n: string): RepoActivity
  {
    var rows := RowsNamed(ws, n);
    RepoActivity(n, Sum(rows, RowCommits), Sum(rows, RowIssues), |rows|)
  }

  function ActivityOver(ws: seq<RepoWork>, d: seq<string>): (r: seq<RepoActivity>)
    ensures |r| == |d|
    ensures forall i :: 0 <= i < |d| ==> r[i] == Activity(ws, d[i])
  {
    if |d| == 0 then [] else [Activity(ws, d[0])] + ActivityOver(ws, d[1..])
  }

  /** The grouped frame, one aggregate per repository name. */
  function RepoActivities(ws: seq<RepoWork>): seq<RepoActivity>
  {
    ActivityOver(ws, RepoNames(ws))
  }

  /** The technologies used anywhere in repository `n` (a set union). */
  function TechUnion(ws: seq<RepoWork>, n: string): set<string>
  {
    set t | t in FlatMap(RowsNamed(ws, n), TechnologiesOf)
  }

  function DiversityOver(ws: seq<RepoWork>, d: seq<string>): (r: seq<(string, nat)>)
    ensures |r| == |d|
    ensures forall i :: 0 <= i < |d| ==> r[i] == (d[i], |TechUnion(ws, d[i])|)
  {
    if |d| == 0 then [] else [(d[0], |TechUnion(ws, d[0])|)] + DiversityOver(ws, d[1..])
  }

  /** The repository analysis; `None` is the empty mapping returned when there
      are no repo-work rows. */
  function AnalyzeRepositoryPatterns(ws: seq<RepoWork>): (r: Option<RepositoryAnalysis>)
    ensures r.None? <==> |ws| == 0
    ensures r.Some? ==> r.value.totalRepositories == |set w | w in ws :: w.repositoryName|
    ensures r.Some? ==> r.value.repositoryActivity == RepoActivities(ws)
    ensures r.Some? ==> r.value.avgContributorsPerRepo == Mean(|ws|, r.value.totalRepositories)
    ensures r.Some? ==> |r.value.mostActiveRepositories| <= 10
    ensures r.Some? ==> |r.value.mostDiverseRepositories| <= 10
  {
    if |ws| == 0 then None
    else
      var names := RepoNames(ws);
      var groups := ActivityOver(ws, names);
      NamesCardinality(ws);
      RowTotals(ws);
      Some(RepositoryAnalysis(
        |groups|,
        groups,
        Take(SortBy(groups, ActivityCommitsKey, true), 10),
        Mean(Sum(groups, ActivityRows), |groups|),
        Take(SortBy(DiversityOver(ws, names), CountKey, true), 10)))
  }

  lemma NamesCardinality(ws: seq<RepoWork>)
    ensures |RepoNames(ws)| == |set w | w in ws :: w.repositoryName|
    ensures |ws| > 0 ==> |RepoNames(ws)| > 0
  {
    var ns := Map(ws, NameOf);
    NoDupCardinality(RepoNames(ws));
    forall n
      ensures n in ns <==> n in (set w | w in ws :: w.repositoryName)
    {
      if n in ns {
        var i :| 0 <= i < |ns| && ns[i] == n;
        assert ws[i] in ws;
      }
      if n in (set w | w in ws :: w.repositoryName) {
        var w :| w in ws && w.repositoryName == n;
        var i :| 0 <= i < |ws| && ws[i] == w;
        assert ns[i] == n;
      }
    }
    assert (set n | n in RepoNames(ws)) == (set w | w in ws :: w.repositoryName);
    if |ws| > 0 {
      assert ns[0] in RepoNames(ws);
    }
  }

  /** Σ over the names `d` of Σ `f` over that repository's rows. */
  function GroupedSum(ws: seq<RepoWork>, d: seq<string>, f: RepoWork -> int): int
  {
    if |d| == 0 then 0 else Sum(RowsNamed(ws, d[0]), f) + GroupedSum(ws, d[1..], f)
  }

  lemma {:induction false} GroupedSumOfNothing(d: seq<string>, f: RepoWork -> int)
    ensures GroupedSum([], d, f) == 0
  {
    if |d| > 0 {
      GroupedSumOfNothing(d[1..], f);
    }
  }

  lemma {:induction false} GroupedSumCons(w: RepoWork, rest: seq<RepoWork>, d: seq<string>, f: RepoWork -> int)
    requires NoDup(d)
    ensures GroupedSum([w] + rest, d, f)
         == (if w.repositoryName in d then f(w) else 0) + GroupedSum(rest, d, f)
  {
    if |d| > 0 {
      RowsNamedCons(w, rest, d[0]);
      GroupedSumCons(w, rest, d[1..], f);
      if w.repositoryName == d[0] {
        assert d[0] !in d[1..];
        SumCons(w, RowsNamed(rest, d[0]), f);
      } else {
        assert [] + RowsNamed(rest, d[0]) == RowsNamed(rest, d[0]);
      }
    }
  }

  /** Grouping loses and duplicates nothing: the per-repository sums add up
      to the sum over all rows. */
  lemma {:induction false} GroupedSumIsTotal(ws: seq<RepoWork>, d: seq<string>, f: RepoWork -> int)
    requires NoDup(d)
    requires forall w :: w in ws ==> w.repositoryName in d
    ensures GroupedSum(ws, d, f) == Sum(ws, f)
  {
    if |ws| == 0 {
      GroupedSumOfNothing(d, f);
    } else {
      assert ws == [ws[0]] + ws[1..];
      GroupedSumCons(ws[0], ws[1..], d, f);
      GroupedSumIsTotal(ws[1..], d, f);
    }
  }

  lemma {:induction false} ActivitySums(ws: seq<RepoWork>, d: seq<string>)
    ensures Sum(ActivityOver(ws, d), ActivityCommits) == GroupedSum(ws, d, RowCommits)
    ensures Sum(ActivityOver(ws, d), ActivityIssues) == GroupedSum(ws, d, RowIssues)
    ensures Sum(ActivityOver(ws, d), ActivityRows) == GroupedSum(ws, d, RowOne)
  {
    if |d| > 0 {
      ActivitySums(ws, d[1..]);
      assert ActivityOver(ws, d)[1..] == ActivityOver(ws, d[1..]);
      RowsCounted(RowsNamed(ws, d[0]));
    }
  }

  lemma {:induction false} RowsCounted(ws: seq<RepoWork>)
    ensures Sum(ws, RowOne) == |ws|
  {
    if |ws| > 0 {
      RowsCounted(ws[1..]);
    }
  }

  lemma NamesCovered(ws: seq<RepoWork>)
    ensures forall w :: w in ws ==> w.repositoryName in RepoNames(ws)
  {
    forall w | w in ws
      ensures w.repositoryName in RepoNames(ws)
    {
      var i :| 0 <= i < |ws| && ws[i] == w;
      assert Map(ws, NameOf)[i] == w.repositoryName;
    }
  }

  /** The grouped frame partitions the rows: commit, issue and row counts of
      the groups add up to the totals over all rows. */
  lemma RowTotals(ws: seq<RepoWork>)
    ensures Sum(RepoActivities(ws), ActivityCommits) == Sum(ws, RowCommits)
    ensures Sum(RepoActivities(ws), ActivityIssues) == Sum(ws, RowIssues)
    ensures Sum(RepoActivities(ws), ActivityRows) == |ws|
  {
    var d := RepoNames(ws);
    NamesCovered(ws);
    ActivitySums(ws, d);
    GroupedSumIsTotal(ws, d, RowCommits);
    GroupedSumIsTotal(ws, d, RowIssues);
    GroupedSumIsTotal(ws, d, RowOne);
    RowsCounted(ws);
  }

  /** Each aggregate row belongs to a repository that occurs in the input and
      counts exactly that repository's rows; every repository has one row. */
  lemma ActivityRowsAreGroups(ws: seq<RepoWork>)
    ensures forall g :: g in RepoActivities(ws) ==>
              g.name in Map(ws, NameOf) && g.contributorCount == Count(Map(ws, NameOf), g.name) > 0
    ensures forall w :: w in ws ==> Activity(ws, w.repositoryName) in RepoActivities(ws)
    ensures forall i, j :: 0 <= i < j < |RepoActivities(ws)| ==>
              RepoActivities(ws)[i].name != RepoActivities(ws)[j].name
  {
    var d := RepoNames(ws);
    var gs := RepoActivities(ws);
    NamesCovered(ws);
    forall g | g in gs
      ensures g.name in Map(ws, NameOf) && g.contributorCount == Count(Map(ws, NameOf), g.name) > 0
    {
      var i :| 0 <= i < |gs| && gs[i] == g;
      assert d[i] in d;
      RowsNamedCount(ws, g.name);
      CountPositive(Map(ws, NameOf), g.name);
    }
    forall w | w in ws
      ensures Activity(ws, w.repositoryName) in gs
    {
      var i :| 0 <= i < |d| && d[i] == w.repositoryName;
      assert gs[i] == Activity(ws, w.repositoryName);
    }
  }

  /** The first ten aggregate rows by commit count, none listed more often
      than it occurs, in non-increasing order; no row left out has more
      commits than one listed. */
  lemma TopByCommits(gs: seq<RepoActivity>)
    ensures var top := Take(SortBy(gs, ActivityCommitsKey, true), 10);
      && multiset(top) <= multiset(gs)
      && (forall i :: 0 <= i < |top| ==> top[i] in gs)
      && (forall i, j :: 0 <= i < j < |top| ==> top[i].commitCount >= top[j].commitCount)
      && (forall g :: g in gs && g !in top ==>
            forall i :: 0 <= i < |top| ==> g.commitCount <= top[i].commitCount)
  {
    var sorted := SortBy(gs, ActivityCommitsKey, true);
    var top := Take(sorted, 10);
    TopDominates(gs, ActivityCommitsKey, true, 10);
    TopKeepsInputOrder(gs, ActivityCommitsKey, true, 10);
    forall i, j | 0 <= i < j < |top|
      ensures top[i].commitCount >= top[j].commitCount
    {
      assert top[i] == sorted[i];
      assert top[j] == sorted[j];
    }
  }

  /** The ten most active repositories: aggregate rows of the input, none
      listed twice, in non-increasing commit order, and no repository left out
      has more commits than one listed. */
  lemma MostActiveRepositories(ws: seq<RepoWork>)
    requires |ws| > 0
    ensures var top := AnalyzeRepositoryPatterns(ws).value.mostActiveRepositories;
      && |top| == (if |RepoNames(ws)| < 10 then |RepoNames(ws)| else 10)
      && multiset(top) <= multiset(RepoActivities(ws))
      && (forall i :: 0 <= i < |top| ==> top[i] in RepoActivities(ws))
      && (forall i, j :: 0 <= i < j < |top| ==> top[i].commitCount >= top[j].commitCount)
      && (forall g :: g in RepoActivities(ws) && g !in top ==>
            forall i :: 0 <= i < |top| ==> g.commitCount <= top[i].commitCount)
  {
    var gs := RepoActivities(ws);
    var top := AnalyzeRepositoryPatterns(ws).value.mostActiveRepositories;
    ActiveIsSortedTake(ws);
    assert |gs| == |RepoNames(ws)|;
    TopByCommits(gs);
  }

  /** The first ten (repository, technology count) pairs by count. */
  lemma TopByDiversity(ws: seq<RepoWork>, d: seq<string>)
    ensures var top := Take(SortBy(DiversityOver(ws, d), CountKey, true), 10);
      && (forall i :: 0 <= i < |top| ==> top[i].0 in d && top[i].1 == |TechUnion(ws, top[i].0)|)
      && NonIncreasing(top)
      && (forall n :: n in d && n !in KeysOf(top) ==>
            forall i :: 0 <= i < |top| ==> |TechUnion(ws, n)| <= top[i].1)
  {
    var ps := DiversityOver(ws, d);
    var sorted := SortBy(ps, CountKey, true);
    var top := Take(sorted, 10);
    TopDominates(ps, CountKey, true, 10);
    SortedByCount(sorted);
    TakeFacts(sorted, 10);
    forall i | 0 <= i < |top|
      ensures top[i].0 in d && top[i].1 == |TechUnion(ws, top[i].0)|
    {
      var k :| 0 <= k < |ps| && ps[k] == top[i];
      assert d[k] in d;
    }
    forall n | n in d && n !in KeysOf(top)
      ensures forall i :: 0 <= i < |top| ==> |TechUnion(ws, n)| <= top[i].1
    {
      var k :| 0 <= k < |d| && d[k] == n;
      var p := ps[k];
      assert p in ps;
      assert p !in top by {
        assert forall q :: q in top ==> q.0 in KeysOf(top);
      }
    }
  }

  /** The ten most diverse repositories: pairs of a repository and the size of
      its technology union, none listed twice, in non-increasing order,
      dominating the rest; `sorted` is stable, so the listed repositories of
      each size are the first of that size in first-seen repository order. */
  lemma MostDiverseRepositories(ws: seq<RepoWork>)
    requires |ws| > 0
    ensures var top := AnalyzeRepositoryPatterns(ws).value.mostDiverseRepositories;
      && |top| == (if |RepoNames(ws)| < 10 then |RepoNames(ws)| else 10)
      && multiset(top) <= multiset(DiversityOver(ws, RepoNames(ws)))
      && (forall k :: WithKey(top, CountKey, k) <= WithKey(DiversityOver(ws, RepoNames(ws)), CountKey, k))
      && (forall i :: 0 <= i < |top| ==>
            top[i].0 in RepoNames(ws) && top[i].1 == |TechUnion(ws, top[i].0)|)
      && NonIncreasing(top)
      && (forall n :: n in RepoNames(ws) && n !in KeysOf(top) ==>
            forall i :: 0 <= i < |top| ==> |TechUnion(ws, n)| <= top[i].1)
  {
    var d := RepoNames(ws);
    DiverseIsSortedTake(ws);
    assert |DiversityOver(ws, d)| == |d|;
    TopByDiversity(ws, d);
    TopKeepsInputOrder(DiversityOver(ws, d), CountKey, true, 10);
  }

  lemma ActiveIsSortedTake(ws: seq<RepoWork>)
    requires |ws| > 0
    ensures AnalyzeRepositoryPatterns(ws).value.mostActiveRepositories
         == Take(SortBy(RepoActivities(ws), ActivityCommitsKey, true), 10)
  {
  }

  /** With at most ten repositories every repository's aggregate is among the
      most active ones. */
  lemma FewRepositoriesAllActive(ws: seq<RepoWork>)
    requires |ws| > 0 && |RepoNames(ws)| <= 10
    ensures forall g :: g in RepoActivities(ws) ==> g in AnalyzeRepositoryPatterns(ws).value.mostActiveRepositories
  {
    var gs := RepoActivities(ws);
    var sorted := SortBy(gs, ActivityCommitsKey, true);
    ActiveIsSortedTake(ws);
    assert Take(sorted, 10) == sorted;
    forall g | g in gs
      ensures g in sorted
    {
      assert g in multiset(gs);
    }
  }

  lemma DiverseIsSortedTake(ws: seq<RepoWork>)
    requires |ws| > 0
    ensures AnalyzeRepositoryPatterns(ws).value.mostDiverseRepositories
         == Take(SortBy(DiversityOver(ws, RepoNames(ws)), CountKey, true), 10)
  {
  }

  /** Every grouped figure depends only on the multiset of rows, not on their
      order. */
  lemma RepositoryTotalsOrderIndependent(ws: seq<RepoWork>, vs: seq<RepoWork>)
    requires multiset(ws) == multiset(vs)
    requires |ws| > 0
    ensures |vs| > 0
    ensures AnalyzeRepositoryPatterns(ws).value.totalRepositories
         == AnalyzeRepositoryPatterns(vs).value.totalRepositories
    ensures AnalyzeRepositoryPatterns(ws).value.avgContributorsPerRepo
         == AnalyzeRepositoryPatterns(vs).value.avgContributorsPerRepo
  {
    assert |ws| == |multiset(ws)| == |multiset(vs)| == |vs|;
    PermutationMembersRows(ws, vs);
  }

  lemma PermutationMembersRows(ws: seq<RepoWork>, vs: seq<RepoWork>)
    requires multiset(ws) == multiset(vs)
    ensures (set w | w in ws :: w.repositoryName) == (set w | w in vs :: w.repositoryName)
  {
    PermutationMembers(ws, vs);
  }
}
