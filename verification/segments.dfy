/** `InsightsEngine.segment_contributors`: each contributor falls in the first
    segment whose commit and repository thresholds it meets. */
module Segments {
  import opened Wrappers
  import opened Seqs
  import opened Records

  datatype Segment = PowerUser | ActiveContributor | RegularContributor | OccasionalContributor

  /** The segment's key in the result mapping. */
  function SegmentName(g: Segment): string
  {
    match g
    case PowerUser => "power_user"
    case ActiveContributor => "active_contributor"
    case RegularContributor => "regular_contributor"
    case OccasionalContributor => "occasional_contributor"
  }

  /** The human-readable criterion reported for each segment. */
  function Criterion(g: Segment): string
  {
    match g
    case PowerUser => "100+ commits, 3+ repos"
    case ActiveContributor => "50+ commits, 2+ repos"
    case RegularContributor => "20+ commits or 1+ repos"
    case OccasionalContributor => "Less than 20 commits"
  }

  /** Segments from the most to the least engaged. */
  const AllSegments: seq<Segment> := [PowerUser, ActiveContributor, RegularContributor, OccasionalContributor]

  function Rank(g: Segment): nat
  {
    match g
    case PowerUser => 3
    case ActiveContributor => 2
    case RegularContributor => 1
    case OccasionalContributor => 0
  }

  /** The first rule whose thresholds the counts meet. */
  function Classify(commits: int, repos: int): Segment
  {
    if commits >= 100 && repos >= 3 then PowerUser
    else if commits >= 50 && repos >= 2 then ActiveContributor
    else if commits >= 20 || repos >= 1 then RegularContributor
    else OccasionalContributor
  }

  function SegmentOf(c: Contributor): Segment
  {
    Classify(c.totalCommits, c.repositoriesCount)
  }

  /** The occasional segment holds exactly those below both thresholds of the
      regular segment: fewer than 20 commits and no repository. Its criterion
      text mentions only the commits. */
  lemma OccasionalMeansNoRepository(commits: int, repos: int)
    ensures Classify(commits, repos) == OccasionalContributor <==> commits < 20 && repos < 1
  {
  }

  /** Each segment's membership condition, stated with the earlier rules
      excluded (first match wins). */
  lemma ClassifyFirstMatch(commits: int, repos: int)
    ensures Classify(commits, repos) == PowerUser <==> commits >= 100 && repos >= 3
    ensures Classify(commits, repos) == ActiveContributor <==>
              !(commits >= 100 && repos >= 3) && commits >= 50 && repos >= 2
    ensures Classify(commits, repos) == RegularContributor <==>
              (commits < 50 || repos < 2) && (commits >= 20 || repos >= 1)
  {
  }

  /** More commits and more repositories never move a contributor down. */
  lemma ClassifyMonotone(c1: int, r1: int, c2: int, r2: int)
    requires c1 <= c2 && r1 <= r2
    ensures Rank(Classify(c1, r1)) <= Rank(Classify(c2, r2))
  {
  }

  /** Usernames of the contributors in segment `g`, in input order. */
  function MembersOf(cs: seq<Contributor>, g: Segment): (r: seq<string>)
    ensures |r| <= |cs|
    ensures forall c :: c in cs && SegmentOf(c) == g ==> c.username in r
  {
    if |cs| == 0 then []
    else
      (if SegmentOf(cs[0]) == g then [cs[0].username] else []) + MembersOf(cs[1..], g)
  }

  datatype SegmentStats = SegmentStats(count: nat, percentage: real)

  datatype Segmentation = Segmentation(
    segments: map<Segment, seq<string>>,
    segmentStatistics: map<Segment, SegmentStats>,
    segmentationCriteria: map<Segment, string>)

  /** `count / total * 100`, unrounded. */
  function Percentage(count: nat, total: nat): (p: real)
    requires total > 0
    ensures p * (total as real) == (count as real) * 100.0
  {
    (count as real) * 100.0 / (total as real)
  }

  /** The segments that occur, with their members. */
  function SegmentMap(cs: seq<Contributor>): (m: map<Segment, seq<string>>)
    ensures m.Keys == set c | c in cs :: SegmentOf(c)
    ensures forall g :: g in m ==> m[g] == MembersOf(cs, g) && |m[g]| > 0
  {
    var m := map g | g in (set c | c in cs :: SegmentOf(c)) :: MembersOf(cs, g);
    assert forall g :: g in m ==> |m[g]| > 0 by {
      forall g | g in m
        ensures |m[g]| > 0
      {
        var c :| c in cs && SegmentOf(c) == g;
        assert c.username in MembersOf(cs, g);
      }
    }
    m
  }

  /** The segmentation; `None` is the empty mapping returned when there are no
      contributors. */
  function SegmentContributors(cs: seq<Contributor>): (r: Option<Segmentation>)
    ensures r.None? <==> |cs| == 0
    ensures r.Some? ==> r.value.segments.Keys == set c | c in cs :: SegmentOf(c)
    ensures r.Some? ==> forall g :: g in r.value.segments ==> |r.value.segments[g]| > 0
    ensures r.Some? ==> forall c :: c in cs ==>
              SegmentOf(c) in r.value.segments && c.username in r.value.segments[SegmentOf(c)]
    ensures r.Some? ==> r.value.segmentStatistics.Keys == r.value.segments.Keys
    ensures r.Some? ==> forall g :: g in r.value.segmentStatistics ==>
              r.value.segmentStatistics[g].count == |r.value.segments[g]| &&
              r.value.segmentStatistics[g].percentage == Percentage(|r.value.segments[g]|, |cs|)
    ensures r.Some? ==> r.value.segmentationCriteria.Keys == set g | g in AllSegments
  {
    if |cs| == 0 then None
    else
      var m := SegmentMap(cs);
      assert forall c :: c in cs ==> c.username in MembersOf(cs, SegmentOf(c));
      var stats := map g | g in m :: SegmentStats(|m[g]|, Percentage(|m[g]|, |cs|));
      var criteria := map g | g in AllSegments :: Criterion(g);
      Some(Segmentation(m, stats, criteria))
  }

  /** The size of segment `g`, zero when it is absent. */
  function SizeOf(s: Segmentation, g: Segment): nat
  {
    if g in s.segments then |s.segments[g]| else 0
  }

  lemma MembersCons(cs: seq<Contributor>, g: Segment)
    requires |cs| > 0
    ensures MembersOf(cs, g) == (if SegmentOf(cs[0]) == g then [cs[0].username] else []) + MembersOf(cs[1..], g)
  {
  }

  lemma {:induction false} MembersPartition(cs: seq<Contributor>)
    ensures |MembersOf(cs, PowerUser)| + |MembersOf(cs, ActiveContributor)|
          + |MembersOf(cs, RegularContributor)| + |MembersOf(cs, OccasionalContributor)| == |cs|
  {
    if |cs| > 0 {
      MembersPartition(cs[1..]);
      MembersCons(cs, PowerUser);
      MembersCons(cs, ActiveContributor);
      MembersCons(cs, RegularContributor);
      MembersCons(cs, OccasionalContributor);
    }
  }

  /** The four segment lists, merged into one multiset. */
  function AllMembers(cs: seq<Contributor>): multiset<string>
  {
    multiset(MembersOf(cs, PowerUser)) + multiset(MembersOf(cs, ActiveContributor))
      + multiset(MembersOf(cs, RegularContributor)) + multiset(MembersOf(cs, OccasionalContributor))
  }

  lemma {:induction false} MembersMultisetPartition(cs: seq<Contributor>)
    ensures AllMembers(cs) == multiset(Map(cs, UsernameOf))
  {
    if |cs| > 0 {
      MembersMultisetPartition(cs[1..]);
      AllMembersCons(cs);
      assert Map(cs, UsernameOf) == [cs[0].username] + Map(cs[1..], UsernameOf);
    }
  }

  lemma AllMembersCons(cs: seq<Contributor>)
    requires |cs| > 0
    ensures AllMembers(cs) == multiset{cs[0].username} + AllMembers(cs[1..])
  {
    var u := multiset{cs[0].username};
    MembersConsMultiset(cs, PowerUser);
    MembersConsMultiset(cs, ActiveContributor);
    MembersConsMultiset(cs, RegularContributor);
    MembersConsMultiset(cs, OccasionalContributor);
  }

  lemma MembersConsMultiset(cs: seq<Contributor>, g: Segment)
    requires |cs| > 0
    ensures multiset(MembersOf(cs, g))
         == (if SegmentOf(cs[0]) == g then multiset{cs[0].username} else multiset{})
          + multiset(MembersOf(cs[1..], g))
  {
    MembersCons(cs, g);
  }

  lemma {:induction false} MembersAbsent(cs: seq<Contributor>, g: Segment)
    requires forall c :: c in cs ==> SegmentOf(c) != g
    ensures MembersOf(cs, g) == []
  {
    if |cs| > 0 {
      MembersAbsent(cs[1..], g);
    }
  }

  lemma SizeIsMembers(cs: seq<Contributor>, g: Segment)
    requires |cs| > 0
    ensures SizeOf(SegmentContributors(cs).value, g) == |MembersOf(cs, g)|
    ensures g in SegmentContributors(cs).value.segments ==>
              SegmentContributors(cs).value.segments[g] == MembersOf(cs, g)
    ensures g !in SegmentContributors(cs).value.segments ==> MembersOf(cs, g) == []
  {
    var s := SegmentContributors(cs).value;
    if g !in s.segments {
      MembersAbsent(cs, g);
    }
  }

  /** The segments partition the contributors: every username lands in
      exactly one segment list, so the list sizes add up to the number of
      contributors. */
  lemma SegmentsPartition(cs: seq<Contributor>)
    requires |cs| > 0
    ensures var s := SegmentContributors(cs).value;
      SizeOf(s, PowerUser) + SizeOf(s, ActiveContributor)
        + SizeOf(s, RegularContributor) + SizeOf(s, OccasionalContributor) == |cs|
    ensures var s := SegmentContributors(cs).value;
      ListOf(s, PowerUser) + ListOf(s, ActiveContributor)
        + ListOf(s, RegularContributor) + ListOf(s, OccasionalContributor)
      == multiset(Map(cs, UsernameOf))
  {
    MembersPartition(cs);
    MembersMultisetPartition(cs);
    SizeIsMembers(cs, PowerUser);
    SizeIsMembers(cs, ActiveContributor);
    SizeIsMembers(cs, RegularContributor);
    SizeIsMembers(cs, OccasionalContributor);
  }

  /** The members of segment `g` as a multiset, empty when it is absent. */
  function ListOf(s: Segmentation, g: Segment): multiset<string>
  {
    if g in s.segments then multiset(s.segments[g]) else multiset{}
  }

  /** The percentage of segment `g`, zero when it is absent. */
  function PercentOf(s: Segmentation, g: Segment): real
  {
    if g in s.segmentStatistics then s.segmentStatistics[g].percentage else 0.0
  }

  lemma PercentOfIsPercentage(cs: seq<Contributor>, g: Segment)
    requires |cs| > 0
    ensures PercentOf(SegmentContributors(cs).value, g)
         == Percentage(SizeOf(SegmentContributors(cs).value, g), |cs|)
  {
    var s := SegmentContributors(cs).value;
    assert s.segmentStatistics.Keys == s.segments.Keys;
    if g in s.segments {
      assert s.segmentStatistics[g].percentage == Percentage(|s.segments[g]|, |cs|);
    } else {
      PercentageOfNothing(|cs|);
    }
  }

  lemma PercentageOfNothing(n: nat)
    requires n > 0
    ensures Percentage(0, n) == 0.0
  {
  }

  lemma PercentageAdd(a: nat, b: nat, n: nat)
    requires n > 0
    ensures Percentage(a, n) + Percentage(b, n) == Percentage(a + b, n)
  {
    var pa, pb, pab := Percentage(a, n), Percentage(b, n), Percentage(a + b, n);
    assert (pa + pb) * (n as real) == pa * (n as real) + pb * (n as real);
    DivideOut(pa + pb, pab, n as real);
  }

  lemma PercentageWhole(n: nat)
    requires n > 0
    ensures Percentage(n, n) == 100.0
  {
    DivideOut(Percentage(n, n), 100.0, n as real);
  }

  lemma DivideOut(x: real, y: real, n: real)
    requires n > 0.0 && x * n == y * n
    ensures x == y
  {
  }

  lemma FourPercentages(a: nat, b: nat, c: nat, d: nat, n: nat)
    requires n > 0 && a + b + c + d == n
    ensures Percentage(a, n) + Percentage(b, n) + Percentage(c, n) + Percentage(d, n) == 100.0
  {
    PercentageAdd(a, b, n);
    PercentageAdd(a + b, c, n);
    PercentageAdd(a + b + c, d, n);
    PercentageWhole(n);
  }

  /** The percentages of the occurring segments add up to 100. */
  lemma PercentagesSumTo100(cs: seq<Contributor>)
    requires |cs| > 0
    ensures var s := SegmentContributors(cs).value;
      PercentOf(s, PowerUser) + PercentOf(s, ActiveContributor)
        + PercentOf(s, RegularContributor) + PercentOf(s, OccasionalContributor) == 100.0
  {
    var s := SegmentContributors(cs).value;
    SegmentsPartition(cs);
    PercentOfIsPercentage(cs, PowerUser);
    PercentOfIsPercentage(cs, ActiveContributor);
    PercentOfIsPercentage(cs, RegularContributor);
    PercentOfIsPercentage(cs, OccasionalContributor);
    FourPercentages(SizeOf(s, PowerUser), SizeOf(s, ActiveContributor),
                    SizeOf(s, RegularContributor), SizeOf(s, OccasionalContributor), |cs|);
  }
}
