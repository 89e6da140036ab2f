/** `InsightsEngine.get_overview_metrics`: contributor totals, averages, the
    activity-level histogram and the ten most common primary languages. */
module Overview {
  import opened Wrappers
  import opened Seqs
  import opened Counter
  import opened Records

  datatype OverviewMetrics = OverviewMetrics(
    totalContributors: nat,
    totalCommits: int,
    totalIssues: int,
    avgReposPerContributor: real,
    activityDistribution: map<string, nat>,
    topLanguages: seq<(string, nat)>,
    commitsPerContributor: real,
    issuesPerContributor: real)

  /** Every contributor's primary languages, concatenated. */
  function AllLanguages(cs: seq<Contributor>): seq<string>
  {
    FlatMap(cs, LanguagesOf)
  }

  /** The overview; `None` stands for the empty mapping returned when there
      are no contributors. */
  function GetOverviewMetrics(cs: seq<Contributor>): (r: Option<OverviewMetrics>)
    ensures r.None? <==> |cs| == 0
    ensures r.Some? ==> r.value.totalContributors == |cs|
    ensures r.Some? ==> r.value.totalCommits == Sum(cs, CommitsOf)
    ensures r.Some? ==> r.value.totalIssues == Sum(cs, IssuesOf)
    ensures r.Some? ==> r.value.avgReposPerContributor == Mean(Sum(cs, ReposOf), |cs|)
    ensures r.Some? ==> r.value.commitsPerContributor == Mean(r.value.totalCommits, |cs|)
    ensures r.Some? ==> r.value.issuesPerContributor == Mean(r.value.totalIssues, |cs|)
    ensures r.Some? ==> r.value.activityDistribution.Keys == (set c | c in cs :: c.activityLevel)
    ensures r.Some? ==> IsMostCommon(AllLanguages(cs), 10, r.value.topLanguages)
  {
    if |cs| == 0 then None
    else
      var commits := Sum(cs, CommitsOf);
      var issues := Sum(cs, IssuesOf);
      var levels := Map(cs, ActivityOf);
      LevelsOfContributors(cs);
      Some(OverviewMetrics(
        |cs|,
        commits,
        issues,
        Mean(Sum(cs, ReposOf), |cs|),
        CounterMap(levels),
        MostCommon(AllLanguages(cs), 10),
        Mean(commits, |cs|),
        Mean(issues, |cs|)))
  }

  lemma LevelsOfContributors(cs: seq<Contributor>)
    ensures (set l | l in Map(cs, ActivityOf)) == (set c | c in cs :: c.activityLevel)
  {
    var levels := Map(cs, ActivityOf);
    forall l | l in levels
      ensures l in (set c | c in cs :: c.activityLevel)
    {
      var i :| 0 <= i < |levels| && levels[i] == l;
      assert cs[i] in cs;
    }
    forall c | c in cs
      ensures c.activityLevel in levels
    {
      var i :| 0 <= i < |cs| && cs[i] == c;
      assert levels[i] == c.activityLevel;
    }
  }

  /** The totals, the averages and the activity histogram do not depend on the
      order of the contributors (the language ranking may, through ties). */
  lemma OverviewOrderIndependent(cs: seq<Contributor>, ds: seq<Contributor>)
    requires multiset(cs) == multiset(ds)
    ensures GetOverviewMetrics(cs).None? <==> GetOverviewMetrics(ds).None?
    ensures GetOverviewMetrics(cs).Some? ==>
      var a, b := GetOverviewMetrics(cs).value, GetOverviewMetrics(ds).value;
      && a.totalContributors == b.totalContributors
      && a.totalCommits == b.totalCommits
      && a.totalIssues == b.totalIssues
      && a.avgReposPerContributor == b.avgReposPerContributor
      && a.activityDistribution == b.activityDistribution
  {
    assert |cs| == |multiset(cs)| == |multiset(ds)| == |ds|;
    SumPermutation(cs, ds, CommitsOf);
    SumPermutation(cs, ds, IssuesOf);
    SumPermutation(cs, ds, ReposOf);
    MapPermutation(cs, ds, ActivityOf);
    CounterMapPermutation(Map(cs, ActivityOf), Map(ds, ActivityOf));
  }

  /** Merging two contributor lists adds their commit and issue totals. */
  lemma OverviewTotalsAdd(cs: seq<Contributor>, ds: seq<Contributor>)
    requires |cs| > 0 && |ds| > 0
    ensures GetOverviewMetrics(cs + ds).value.totalCommits
         == GetOverviewMetrics(cs).value.totalCommits + GetOverviewMetrics(ds).value.totalCommits
    ensures GetOverviewMetrics(cs + ds).value.totalIssues
         == GetOverviewMetrics(cs).value.totalIssues + GetOverviewMetrics(ds).value.totalIssues
    ensures GetOverviewMetrics(cs + ds).value.totalContributors
         == GetOverviewMetrics(cs).value.totalContributors + GetOverviewMetrics(ds).value.totalContributors
  {
    SumConcat(cs, ds, CommitsOf);
    SumConcat(cs, ds, IssuesOf);
  }

  /** The activity histogram counts every contributor exactly once. */
  lemma ActivityDistributionTotal(cs: seq<Contributor>)
    requires |cs| > 0
    ensures Sum(CountItems(Map(cs, ActivityOf)), Occurrences) == GetOverviewMetrics(cs).value.totalContributors
    ensures forall l :: l in GetOverviewMetrics(cs).value.activityDistribution ==>
              GetOverviewMetrics(cs).value.activityDistribution[l] == Count(Map(cs, ActivityOf), l)
  {
    CountsSumToLength(Map(cs, ActivityOf));
  }
}
