/** `InsightsEngine.generate_contributor_report`: one contributor's record, a
    commits-per-repository figure and one breakdown line per repo-work row of
    that contributor. */
module Report {
  import opened Wrappers
  import opened Seqs
  import opened Records

  datatype BasicInfo = BasicInfo(username: string, activityLevel: string, contributionStyle: string)

  datatype ReportMetrics = ReportMetrics(
    totalCommits: int,
    totalIssues: int,
    totalRepositories: int,
    commitsPerRepo: real)

  datatype SkillInfo = SkillInfo(
    technicalSkills: seq<string>,
    expertiseAreas: seq<string>,
    primaryLanguages: seq<string>)

  datatype BreakdownLine = BreakdownLine(
    repository: string,
    commits: int,
    issues: int,
    technologies: seq<string>,
    contributionType: string)

  datatype ContributorReport = ContributorReport(
    basicInfo: BasicInfo,
    metrics: ReportMetrics,
    skills: SkillInfo,
    repositoryBreakdown: seq<BreakdownLine>,
    aiSummary: string)

  /** pandas' `KeyError` for a column of an empty frame, which has none. */
  datatype ReportError = MissingColumn(column: string)

  /** The first contributor with username `u` (`iloc[0]` of the match). */
  function FirstNamed(cs: seq<Contributor>, u: string): (r: Option<Contributor>)
    ensures r.None? <==> forall c :: c in cs ==> c.username != u
    ensures r.Some? ==> exists i :: 0 <= i < |cs| && cs[i] == r.value && r.value.username == u &&
                          forall j :: 0 <= j < i ==> cs[j].username != u
  {
    if |cs| == 0 then None
    else if cs[0].username == u then Some(cs[0])
    else
      var r := FirstNamed(cs[1..], u);
      assert forall c :: c in cs <==> c == cs[0] || c in cs[1..];
      if r.Some? then
        var i :| 0 <= i < |cs[1..]| && cs[1..][i] == r.value && r.value.username == u &&
                  forall j :: 0 <= j < i ==> cs[1..][j].username != u;
        assert cs[i + 1] == r.value;
        r
      else r
  }

  /** The repo-work rows of contributor `u`, in input order. */
  function RowsBy(ws: seq<RepoWork>, u: string): (r: seq<RepoWork>)
    ensures forall w :: w in r <==> w in ws && w.contributorId == u
    ensures multiset(r) <= multiset(ws)
  {
    if |ws| == 0 then []
    else
      assert ws == [ws[0]] + ws[1..];
      (if ws[0].contributorId == u then [ws[0]] else []) + RowsBy(ws[1..], u)
  }

  function LineOf(w: RepoWork): BreakdownLine
  {
    BreakdownLine(w.repositoryName, w.commitCount, w.issueCount, w.technologies, w.contributionType)
  }

  function LineCommits(l: BreakdownLine): int { l.commits }

  /** `total_commits / total_repos`, or 0 without repositories. */
  function CommitsPerRepo(commits: int, repos: int): (r: real)
    ensures repos > 0 ==> r * (repos as real) == commits as real
    ensures repos <= 0 ==> r == 0.0
  {
    if repos > 0 then (commits as real) / (repos as real) else 0.0
  }

  function ReportOf(c: Contributor, lines: seq<BreakdownLine>): ContributorReport
  {
    ContributorReport(
      BasicInfo(c.username, c.activityLevel, c.contributionStyle),
      ReportMetrics(c.totalCommits, c.totalIssues, c.repositoriesCount,
                    CommitsPerRepo(c.totalCommits, c.repositoriesCount)),
      SkillInfo(c.skills, c.expertiseAreas, c.primaryLanguages),
      lines,
      c.summary)
  }

  /** The report as the code computes it: selecting a column of the empty
      frame built from an empty list fails, both for the contributors
      (`username`) and, once the contributor is found, for the repo-work rows
      (`contributor_id`). */
  function GenerateContributorReportAsWritten(cs: seq<Contributor>, ws: seq<RepoWork>, u: string)
    : (r: Result<Option<ContributorReport>, ReportError>)
    ensures r == Failure(MissingColumn("username")) <==> |cs| == 0
    ensures r == Failure(MissingColumn("contributor_id")) <==>
              |ws| == 0 && exists c :: c in cs && c.username == u
  {
    if |cs| == 0 then Failure(MissingColumn("username"))
    else
      match FirstNamed(cs, u)
      case None => Success(None)
      case Some(c) =>
        if |ws| == 0 then Failure(MissingColumn("contributor_id"))
        else Success(Some(ReportOf(c, Map(RowsBy(ws, u), LineOf))))
  }

  /** The report as evidently intended: an unknown username gives the empty
      mapping and a contributor without rows an empty breakdown. */
  function GenerateContributorReport(cs: seq<Contributor>, ws: seq<RepoWork>, u: string)
    : (r: Option<ContributorReport>)
    ensures r.None? <==> forall c :: c in cs ==> c.username != u
    ensures r.Some? ==> DescribesFirst(r.value, cs, u)
    ensures r.Some? ==> |r.value.repositoryBreakdown| == |RowsBy(ws, u)|
    ensures r.Some? ==> forall i :: 0 <= i < |RowsBy(ws, u)| ==>
              LineDescribes(r.value.repositoryBreakdown[i], RowsBy(ws, u)[i])
  {
    match FirstNamed(cs, u)
    case None => None
    case Some(c) => Some(ReportOf(c, Map(RowsBy(ws, u), LineOf)))
  }

  /** The report is about user `u` and carries the fields of the first
      contributor record with that username. */
  predicate DescribesFirst(rep: ContributorReport, cs: seq<Contributor>, u: string)
  {
    rep.basicInfo.username == u &&
    exists i :: 0 <= i < |cs| && cs[i].username == u &&
      (forall j :: 0 <= j < i ==> cs[j].username != u) &&
      Describes(rep, cs[i])
  }

  /** Every field of the report but the breakdown comes from record `c`; the
      commits per repository times the repository count gives back the
      commits, and the figure is 0 without repositories. */
  predicate Describes(rep: ContributorReport, c: Contributor)
  {
    && rep.basicInfo.activityLevel == c.activityLevel
    && rep.basicInfo.contributionStyle == c.contributionStyle
    && rep.metrics.totalCommits == c.totalCommits
    && rep.metrics.totalIssues == c.totalIssues
    && rep.metrics.totalRepositories == c.repositoriesCount
    && (c.repositoriesCount > 0 ==>
          rep.metrics.commitsPerRepo * (c.repositoriesCount as real) == c.totalCommits as real)
    && (c.repositoriesCount <= 0 ==> rep.metrics.commitsPerRepo == 0.0)
    && rep.skills.technicalSkills == c.skills
    && rep.skills.expertiseAreas == c.expertiseAreas
    && rep.skills.primaryLanguages == c.primaryLanguages
    && rep.aiSummary == c.summary
  }

  /** A breakdown line copies its row's repository, counters, technologies
      and contribution type. */
  predicate LineDescribes(l: BreakdownLine, w: RepoWork)
  {
    && l.repository == w.repositoryName
    && l.commits == w.commitCount
    && l.issues == w.issueCount
    && l.technologies == w.technologies
    && l.contributionType == w.contributionType
  }

  /** Where the code succeeds, which is whenever there are contributors and
      either repo-work rows or no contributor named `u`, it agrees with the
      intended report. */
  lemma AsWrittenAgreesWhenItSucceeds(cs: seq<Contributor>, ws: seq<RepoWork>, u: string)
    requires |cs| > 0
    requires |ws| > 0 || forall c :: c in cs ==> c.username != u
    ensures GenerateContributorReportAsWritten(cs, ws, u).Success?
    ensures GenerateContributorReportAsWritten(cs, ws, u).value == GenerateContributorReport(cs, ws, u)
  {
  }

  /** With no contributors at all, asking for any username fails instead of
      returning the empty mapping. */
  lemma EmptyContributorsFail()
    ensures GenerateContributorReportAsWritten([], [], "alice") == Failure(MissingColumn("username"))
    ensures GenerateContributorReport([], [], "alice") == None
  {
  }

  /** A known contributor fails when there are no repo-work rows at all,
      instead of getting an empty breakdown. */
  lemma NoRowsFail()
    ensures var alice := Contributor("alice", 10, 2, 0, [], [], [], "low", "", "");
      GenerateContributorReportAsWritten([alice], [], "alice") == Failure(MissingColumn("contributor_id")) &&
      GenerateContributorReport([alice], [], "alice").Some? &&
      GenerateContributorReport([alice], [], "alice").value.repositoryBreakdown == []
  {
  }

  lemma RowsByCons(ws: seq<RepoWork>, u: string)
    requires |ws| > 0
    ensures RowsBy(ws, u) == (if ws[0].contributorId == u then [ws[0]] else []) + RowsBy(ws[1..], u)
  {
  }

  /** The breakdown lists the contributor's rows, one line per row. */
  lemma {:induction false} BreakdownRowCount(ws: seq<RepoWork>, u: string)
    ensures |RowsBy(ws, u)| == Count(Map(ws, ContributorIdOf), u)
  {
    if |ws| > 0 {
      BreakdownRowCount(ws[1..], u);
      assert Map(ws, ContributorIdOf)[1..] == Map(ws[1..], ContributorIdOf);
      RowsByCons(ws, u);
    }
  }

  /** The breakdown's commits add up to the contributor's commits over all
      rows. */
  lemma {:induction false} BreakdownCommits(ws: seq<RepoWork>, u: string)
    ensures Sum(Map(RowsBy(ws, u), LineOf), LineCommits) == Sum(RowsBy(ws, u), RowCommits)
  {
    MappedCommits(RowsBy(ws, u));
  }

  lemma {:induction false} MappedCommits(rows: seq<RepoWork>)
    ensures Sum(Map(rows, LineOf), LineCommits) == Sum(rows, RowCommits)
  {
    if |rows| > 0 {
      MappedCommits(rows[1..]);
      assert Map(rows, LineOf)[1..] == Map(rows[1..], LineOf);
    }
  }
}
