/** The sample organisation of the engine's test suite: three contributors and
    four repo-work rows, and what each analysis reports about them. */
module Fixture {
  import opened Wrappers
  import opened Seqs
  import opened Strings
  import opened Counter
  import opened Records
  import opened Overview
  import opened Skills
  import opened Repositories
  import opened Segments
  import opened Collaboration
  import opened Technology
  import opened Productivity
  import opened Report

  const Alice := Contributor("alice", 100, 20, 5, ["Python", "React", "Docker"],
    ["Backend", "DevOps"], ["Python", "JavaScript"], "high", "collaborative", "")
  const Bob := Contributor("bob", 50, 10, 3, ["Java", "Spring", "Kubernetes"],
    ["Backend", "Microservices"], ["Java", "Python"], "medium", "independent", "")
  const Charlie := Contributor("charlie", 25, 5, 2, ["React", "TypeScript", "Node.js"],
    ["Frontend", "Full-stack"], ["JavaScript", "TypeScript"], "low", "collaborative", "")

  const Team := [Alice, Bob, Charlie]

  const Row1 := RepoWork("alice", "proj1", "project1", 60, 12,
    ["Python", "Flask", "PostgreSQL"], "feature_development", "", "")
  const Row2 := RepoWork("alice", "proj2", "project2", 40, 8,
    ["React", "Node.js", "MongoDB"], "full_stack", "", "")
  const Row3 := RepoWork("bob", "proj1", "project1", 30, 6,
    ["Java", "Spring", "MySQL"], "backend", "", "")
  const Row4 := RepoWork("charlie", "proj3", "project3", 25, 5,
    ["React", "TypeScript", "GraphQL"], "frontend", "", "")

  const Rows := [Row1, Row2, Row3, Row4]

  lemma TeamTails()
    ensures Team[1..] == [Bob, Charlie] && Team[1..][1..] == [Charlie] && [Charlie][1..] == []
  {
  }

  lemma RowTails()
    ensures Rows[1..] == [Row2, Row3, Row4] && [Row2, Row3, Row4][1..] == [Row3, Row4]
    ensures [Row3, Row4][1..] == [Row4] && [Row4][1..] == []
  {
  }

  lemma RowCases(w: RepoWork)
    requires w in Rows
    ensures w == Row1 || w == Row2 || w == Row3 || w == Row4
  {
  }

  /** Three contributors, 175 commits and 35 issues. */
  lemma OverviewOfTeam()
    ensures GetOverviewMetrics(Team).Some?
    ensures GetOverviewMetrics(Team).value.totalContributors == 3
    ensures GetOverviewMetrics(Team).value.totalCommits == 175
    ensures GetOverviewMetrics(Team).value.totalIssues == 35
  {
    TeamTails();
    assert Sum([Charlie], CommitsOf) == 25;
    assert Sum([Charlie], IssuesOf) == 5;
    assert Sum([Bob, Charlie], CommitsOf) == 75;
    assert Sum([Bob, Charlie], IssuesOf) == 15;
  }

  /** alice is a power user, bob an active and charlie a regular contributor. */
  lemma SegmentsOfTeam()
    ensures SegmentContributors(Team).Some?
    ensures "alice" in SegmentContributors(Team).value.segments[PowerUser]
    ensures "bob" in SegmentContributors(Team).value.segments[ActiveContributor]
    ensures "charlie" in SegmentContributors(Team).value.segments[RegularContributor]
  {
    assert SegmentOf(Alice) == PowerUser;
    assert SegmentOf(Bob) == ActiveContributor;
    assert SegmentOf(Charlie) == RegularContributor;
    assert Alice in Team && Bob in Team && Charlie in Team;
  }

  lemma SkillsOfTeam()
    ensures AllSkills(Team) == Alice.skills + (Bob.skills + Charlie.skills)
  {
    TeamTails();
    assert FlatMap([Charlie], SkillsOf) == Charlie.skills;
    assert FlatMap([Bob, Charlie], SkillsOf) == Bob.skills + Charlie.skills;
  }

  lemma ReactSkillTwice()
    ensures "React" in AllSkills(Team) && Count(AllSkills(Team), "React") == 2
    ensures |AllSkills(Team)| == 9
  {
    SkillsOfTeam();
    CountIsMultiplicity(AllSkills(Team), "React");
    assert Alice.skills[1] == "React";
  }

  /** React is listed among the top skills with count 2. */
  lemma ReactIsATopSkill()
    ensures AnalyzeSkillDistribution(Team).Some?
    ensures ("React", 2) in AnalyzeSkillDistribution(Team).value.topSkills
  {
    ReactSkillTwice();
    TopWhenFew(Team, "React");
  }

  /** With at most fifteen skill entries, every skill is a top skill. */
  lemma TopWhenFew(cs: seq<Contributor>, t: string)
    requires |cs| > 0 && t in AllSkills(cs) && |AllSkills(cs)| <= 15
    ensures (t, Count(AllSkills(cs), t)) in AnalyzeSkillDistribution(cs).value.topSkills
  {
    MostCommonCoversAll(AllSkills(cs), 15);
  }

  lemma TechnologiesOfRows()
    ensures AllTechnologies(Rows)
         == Row1.technologies + (Row2.technologies + (Row3.technologies + Row4.technologies))
  {
    RowTails();
    assert FlatMap([Row4], TechnologiesOf) == Row4.technologies;
    assert FlatMap([Row3, Row4], TechnologiesOf) == Row3.technologies + Row4.technologies;
    assert FlatMap([Row2, Row3, Row4], TechnologiesOf)
        == Row2.technologies + (Row3.technologies + Row4.technologies);
  }

  lemma ReactOccursTwice()
    ensures "React" in AllTechnologies(Rows) && Count(AllTechnologies(Rows), "React") == 2
    ensures |AllTechnologies(Rows)| == 12
  {
    TechnologiesOfRows();
    CountIsMultiplicity(AllTechnologies(Rows), "React");
    assert Row2.technologies[0] == "React";
  }

  /** React occurs in two rows, and the popular list gives it count 2. */
  lemma ReactIsAPopularTechnology()
    ensures AnalyzeTechnologyTrends(Rows).Some?
    ensures ("React", 2) in AnalyzeTechnologyTrends(Rows).value.popularTechnologies
  {
    ReactOccursTwice();
    PopularWhenFew(Rows, "React");
  }

  /** With at most fifteen technology entries, every technology is popular. */
  lemma PopularWhenFew(ws: seq<RepoWork>, t: string)
    requires t in AllTechnologies(ws) && |AllTechnologies(ws)| <= 15
    ensures AnalyzeTechnologyTrends(ws).Some?
    ensures (t, Count(AllTechnologies(ws), t)) in AnalyzeTechnologyTrends(ws).value.popularTechnologies
  {
    MostCommonCoversAll(AllTechnologies(ws), 15);
  }

  /** project1 aggregates two rows (alice and bob) and 60 + 30 commits, and
      with only three repositories it is among the most active. */
  lemma ProjectOneActivity()
    ensures Activity(Rows, "project1") == RepoActivity("project1", 90, 18, 2)
    ensures Activity(Rows, "project1") in RepoActivities(Rows)
    ensures RepoActivity("project1", 90, 18, 2) in AnalyzeRepositoryPatterns(Rows).value.mostActiveRepositories
  {
    RowTails();
    assert RowsNamed([Row4], "project1") == [];
    assert RowsNamed([Row3, Row4], "project1") == [Row3];
    assert RowsNamed([Row2, Row3, Row4], "project1") == [Row3];
    assert RowsNamed(Rows, "project1") == [Row1, Row3];
    assert Sum([Row3], RowCommits) == 30;
    assert Sum([Row3], RowIssues) == 6;
    assert Map(Rows, NameOf)[0] == "project1";
    var i :| 0 <= i < |RepoNames(Rows)| && RepoNames(Rows)[i] == "project1";
    assert RepoActivities(Rows)[i] == Activity(Rows, "project1");
    FewRepositoriesAllActive(Rows);
  }

  /** alice shares project1 with bob, so their pair is counted once; charlie
      shares nothing, so no counted pair involves charlie; and the pair is
      reported among the top collaborations with its count. */
  lemma AliceAndBobCollaborate()
    ensures Count(PairStream(Rows), ("alice", "bob")) == 1
    ensures forall p :: p in PairStream(Rows) ==> p.0 != "charlie" && p.1 != "charlie"
    ensures (("alice", "bob"), 1) in AnalyzeCollaborationPatterns(Rows).value.topCollaborations
  {
    assert Less("alice", "bob");
    SharedByAliceAndBob();
    CollaborationCountIsSharedRepositories(Rows, "alice", "bob");
    CollaborationKeys(Rows);
    forall p | p in PairStream(Rows)
      ensures p.0 != "charlie" && p.1 != "charlie"
    {
      LessIrreflexive(p.0);
      if p.0 == "charlie" || p.1 == "charlie" {
        NoSharedRepositoryWithCharlie(p.0, p.1);
      }
    }
    OnlyAliceAndBob();
    NoDupOfOne(Distinct(PairStream(Rows)), ("alice", "bob"));
    MostCommonCoversAll(PairStream(Rows), 10);
    assert AnalyzeCollaborationPatterns(Rows).value.topCollaborations == MostCommon(PairStream(Rows), 10);
  }

  /** The only pair counted is alice with bob. */
  lemma OnlyAliceAndBob()
    ensures forall p :: p in PairStream(Rows) ==> p == ("alice", "bob")
  {
    StreamCanonical(Rows, RepoNames(Rows));
    forall p | p in PairStream(Rows)
      ensures p == ("alice", "bob")
    {
      var n :| n in RepoNames(Rows) && WorkedOn(Rows, p.0, n) && WorkedOn(Rows, p.1, n);
      var w :| w in Rows && w.repositoryName == n && w.contributorId == p.0;
      var v :| v in Rows && v.repositoryName == n && v.contributorId == p.1;
      RowCases(w);
      RowCases(v);
      LessIrreflexive(p.0);
      assert Less("alice", "bob");
      LessAsymmetric("alice", "bob");
    }
  }

  lemma SharedByAliceAndBob()
    ensures SharedRepositories(Rows, "alice", "bob") == {"project1"}
  {
    assert WorkedOn(Rows, "bob", "project1") by { assert Row3 in Rows; }
    assert Row1 in Rows;
    forall n | n in SharedRepositories(Rows, "alice", "bob")
      ensures n == "project1"
    {
      var w :| w in Rows && w.contributorId == "alice" && WorkedOn(Rows, "bob", w.repositoryName)
        && w.repositoryName == n;
      var v :| v in Rows && v.repositoryName == n && v.contributorId == "bob";
      RowCases(v);
    }
  }

  /** charlie's only repository has no other contributor. */
  lemma NoSharedRepositoryWithCharlie(a: string, b: string)
    requires a != b
    requires a == "charlie" || b == "charlie"
    ensures |SharedRepositories(Rows, a, b)| == 0
  {
    forall n | n in SharedRepositories(Rows, a, b)
      ensures false
    {
      var w :| w in Rows && w.contributorId == a && WorkedOn(Rows, b, w.repositoryName)
        && w.repositoryName == n;
      var v :| v in Rows && v.repositoryName == n && v.contributorId == b;
      RowCases(w);
      RowCases(v);
    }
  }

  /** alice has the highest commits per repository, 100 / 5 = 20.0. */
  lemma AliceIsMostProductive()
    ensures CalculateProductivityMetrics(Team, Rows).Success?
    ensures CalculateProductivityMetrics(Team, Rows).value.Some?
    ensures CalculateProductivityMetrics(Team, Rows).value.value.topProductiveContributors[0].username == "alice"
    ensures CalculateProductivityMetrics(Team, Rows).value.value.topProductiveContributors[0].commitsPerRepo == 20.0
  {
    TeamEntries();
    StrictMaximumRanksFirst(Entries(Team), EntryOf(Alice));
  }

  lemma TeamEntries()
    ensures Entries(Team) == [EntryOf(Alice), EntryOf(Bob), EntryOf(Charlie)]
    ensures EntryOf(Alice).commitsPerRepo == 20.0 && EntryOf(Alice).username == "alice"
    ensures EntryOf(Bob).commitsPerRepo < 20.0 && EntryOf(Charlie).commitsPerRepo < 20.0
  {
    TeamTails();
    assert Entries([Charlie]) == [EntryOf(Charlie)];
    assert Entries([Bob, Charlie]) == [EntryOf(Bob), EntryOf(Charlie)];
  }

  /** alice's report: high activity, 100 commits, 20 issues, five
      repositories, 20.0 commits per repository, Python among the skills and
      Backend among the expertise areas; an unknown username gives no
      report. */
  lemma AliceReport()
    ensures var r := GenerateContributorReport(Team, Rows, "alice");
      && r.Some?
      && r.value.basicInfo.username == "alice" && r.value.basicInfo.activityLevel == "high"
      && r.value.metrics.totalCommits == 100 && r.value.metrics.totalIssues == 20
      && r.value.metrics.totalRepositories == 5 && r.value.metrics.commitsPerRepo == 20.0
      && "Python" in r.value.skills.technicalSkills && "Backend" in r.value.skills.expertiseAreas
    ensures GenerateContributorReport(Team, Rows, "nonexistent") == None
  {
    assert Team[0] in Team;
    var r := GenerateContributorReport(Team, Rows, "alice");
    assert r.Some?;
    var i :| 0 <= i < |Team| && Team[i].username == "alice" &&
             (forall j :: 0 <= j < i ==> Team[j].username != "alice") && Describes(r.value, Team[i]);
    assert i == 0;
    assert Alice.skills[0] == "Python";
    assert Alice.expertiseAreas[0] == "Backend";
    NobodyNamed("nonexistent");
  }

  lemma NobodyNamed(u: string)
    requires u != "alice" && u != "bob" && u != "charlie"
    ensures forall c :: c in Team ==> c.username != u
  {
  }
}
