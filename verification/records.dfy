/** The two input collections of the insights engine. A record in the source
    is a dictionary whose absent keys read as defaults (0, an empty list, an
    empty string); here every field is present and holds that default. */
module Records {

  /** One person: aggregate counters and free-text tags. */
  datatype Contributor = Contributor(
    username: string,
    totalCommits: int,
    totalIssues: int,
    repositoriesCount: int,
    skills: seq<string>,
    expertiseAreas: seq<string>,
    primaryLanguages: seq<string>,
    activityLevel: string,
    contributionStyle: string,
    summary: string)

  /** One contributor's activity in one repository ("repo-work" row). */
  datatype RepoWork = RepoWork(
    contributorId: string,
    repositoryId: string,
    repositoryName: string,
    commitCount: int,
    issueCount: int,
    technologies: seq<string>,
    contributionType: string,
    summary: string,
    lastContribution: string)

  // Field accessors, passed as function values to the sequence helpers.

  function UsernameOf(c: Contributor): string { c.username }
  function CommitsOf(c: Contributor): int { c.totalCommits }
  function IssuesOf(c: Contributor): int { c.totalIssues }
  function ReposOf(c: Contributor): int { c.repositoriesCount }
  function SkillsOf(c: Contributor): seq<string> { c.skills }
  function LanguagesOf(c: Contributor): seq<string> { c.primaryLanguages }
  function ActivityOf(c: Contributor): string { c.activityLevel }

  function NameOf(w: RepoWork): string { w.repositoryName }
  function ContributorIdOf(w: RepoWork): string { w.contributorId }
  function RowCommits(w: RepoWork): int { w.commitCount }
  function RowIssues(w: RepoWork): int { w.issueCount }
  function TechnologiesOf(w: RepoWork): seq<string> { w.technologies }
}
