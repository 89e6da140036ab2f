/** `InsightsEngine.analyze_technology_trends`: technology occurrences over all
    repo-work rows, the fifteen most used, per-repository technology sets and
    the "emerging" technologies. */
module Technology {
  import opened Wrappers
  import opened Seqs
  import opened Counter
  import opened Records
  import opened Repositories

  datatype TechnologyAnalysis = TechnologyAnalysis(
    totalTechnologies: nat,
    popularTechnologies: seq<(string, nat)>,
    emergingTechnologies: seq<string>,
    avgTechnologiesPerRepo: real,
    technologyAdoptionRate: map<string, nat>)

  /** Every technology entry of every row (one per occurrence). */
  function AllTechnologies(ws: seq<RepoWork>): seq<string>
  {
    FlatMap(ws, TechnologiesOf)
  }

  /** `count <= max(1, total_repos * 0.1)`, in exact arithmetic. */
  predicate IsEmerging(count: nat, repos: nat)
  {
    var threshold := if 1.0 < (repos as real) * 0.1 then (repos as real) * 0.1 else 1.0;
    (count as real) <= threshold
  }

  /** The threshold over the integers: at most one occurrence, or at most a
      tenth of the number of repositories. */
  lemma EmergingThresholdIsInteger(count: nat, repos: nat)
    ensures IsEmerging(count, repos) <==> count <= 1 || 10 * count <= repos
  {
  }

  /** The condition of the emerging-technology comprehension, for the
      technology entries `all` of `repos` repositories. */
  function EmergingIn(all: seq<string>, repos: nat): string -> bool
  {
    t => IsEmerging(Count(all, t), repos)
  }

  /** The emerging list `e` in integer terms, for the technology entries
      `all` of `repos` repositories: every listed technology occurs with
      `count <= 1` or `10 * count <= repos`; with fewer than ten listed, every
      such technology is listed; and every such technology left out first
      occurs after each listed one. */
  predicate ListsEmerging(all: seq<string>, repos: nat, e: seq<string>)
  {
    && (forall t :: t in e ==> t in all && (Count(all, t) <= 1 || 10 * Count(all, t) <= repos))
    && (|e| < 10 ==> forall t :: t in all && (Count(all, t) <= 1 || 10 * Count(all, t) <= repos) ==> t in e)
    && (forall t :: t in all && (Count(all, t) <= 1 || 10 * Count(all, t) <= repos) && t !in e ==>
          forall i :: 0 <= i < |e| ==> Pos(all, e[i]) < Pos(all, t))
  }

  /** Every emerging technology, each once, in first-seen order. */
  function EmergingCandidates(all: seq<string>, repos: nat): (r: seq<string>)
    ensures forall t :: t in r <==> t in all && IsEmerging(Count(all, t), repos)
    ensures NoDup(r)
    ensures FirstSeenOrder(all, r)
  {
    var d := Distinct(all);
    FilterNoDup(d, EmergingIn(all, repos));
    DistinctOrder(all);
    FilterOrder(all, d, EmergingIn(all, repos));
    Filter(d, EmergingIn(all, repos))
  }

  /** The first ten emerging technologies in first-seen order; fewer than ten
      only when there are no more, and every emerging technology left out
      first occurs after each listed one. */
  function FirstEmerging(all: seq<string>, repos: nat): (r: seq<string>)
    ensures IsFirstSeenSelection(all, EmergingIn(all, repos), 10, r)
    ensures ListsEmerging(all, repos, r)
  {
    FirstSeenSelection(all, EmergingIn(all, repos), 10);
    EmergingSelection(all, repos, Take(EmergingCandidates(all, repos), 10));
    Take(EmergingCandidates(all, repos), 10)
  }

  function UnionSizesOver(ws: seq<RepoWork>, d: seq<string>): nat
  {
    if |d| == 0 then 0 else |TechUnion(ws, d[0])| + UnionSizesOver(ws, d[1..])
  }

  /** The technology analysis; `None` is the empty mapping returned when there
      are no repo-work rows. */
  function AnalyzeTechnologyTrends(ws: seq<RepoWork>): (r: Option<TechnologyAnalysis>)
    ensures r.None? <==> |ws| == 0
    ensures r.Some? ==> r.value.totalTechnologies == |set t | t in AllTechnologies(ws)|
    ensures r.Some? ==> r.value.technologyAdoptionRate.Keys == set t | t in AllTechnologies(ws)
    ensures r.Some? ==> forall t :: t in r.value.technologyAdoptionRate ==>
              r.value.technologyAdoptionRate[t] == Count(AllTechnologies(ws), t)
    ensures r.Some? ==> IsMostCommon(AllTechnologies(ws), 15, r.value.popularTechnologies)
    ensures r.Some? ==>
              IsFirstSeenSelection(AllTechnologies(ws), EmergingIn(AllTechnologies(ws), |RepoNames(ws)|), 10,
                                   r.value.emergingTechnologies)
    ensures r.Some? ==> ListsEmerging(AllTechnologies(ws), |RepoNames(ws)|, r.value.emergingTechnologies)
    ensures r.Some? ==>
              r.value.avgTechnologiesPerRepo == Mean(UnionSizesOver(ws, RepoNames(ws)), |RepoNames(ws)|)
  {
    if |ws| == 0 then None
    else
      var all := AllTechnologies(ws);
      var names := RepoNames(ws);
      NamesCardinality(ws);
      Some(TechnologyAnalysis(
        DistinctCount(all),
        MostCommon(all, 15),
        FirstEmerging(all, |names|),
        Mean(UnionSizesOver(ws, names), |names|),
        CounterMap(all)))
  }

  lemma EmergingInIsInteger(all: seq<string>, repos: nat)
    ensures forall t :: EmergingIn(all, repos)(t) <==> Count(all, t) <= 1 || 10 * Count(all, t) <= repos
  {
    forall t
      ensures EmergingIn(all, repos)(t) <==> Count(all, t) <= 1 || 10 * Count(all, t) <= repos
    {
      EmergingThresholdIsInteger(Count(all, t), repos);
    }
  }

  lemma EmergingSelection(all: seq<string>, repos: nat, e: seq<string>)
    requires IsFirstSeenSelection(all, EmergingIn(all, repos), 10, e)
    ensures ListsEmerging(all, repos, e)
  {
    EmergingInIsInteger(all, repos);
  }

  // ---- occurrences against repositories ----

  /** Occurrences of `t` in one row's list. */
  function Mentions(t: string): RepoWork -> int
  {
    (w: RepoWork) => Count(w.technologies, t)
  }

  lemma {:induction false} OccurrencesPerRow(ws: seq<RepoWork>, t: string)
    ensures Count(AllTechnologies(ws), t) == Sum(ws, Mentions(t))
  {
    if |ws| > 0 {
      OccurrencesPerRow(ws[1..], t);
      CountConcat(ws[0].technologies, AllTechnologies(ws[1..]), t);
    }
  }

  lemma {:induction false} MentionsInUnion(rows: seq<RepoWork>, t: string)
    ensures t in FlatMap(rows, TechnologiesOf) ==> Sum(rows, Mentions(t)) >= 1
    ensures Sum(rows, Mentions(t)) >= 0
  {
    if |rows| > 0 {
      MentionsInUnion(rows[1..], t);
      CountPositive(rows[0].technologies, t);
    }
  }

  /** The repositories among `d` whose technology set holds `t`. */
  function UsingOver(ws: seq<RepoWork>, d: seq<string>, t: string): nat
  {
    if |d| == 0 then 0 else (if t in TechUnion(ws, d[0]) then 1 else 0) + UsingOver(ws, d[1..], t)
  }

  lemma {:induction false} GroupedMentionsBound(ws: seq<RepoWork>, d: seq<string>, t: string)
    ensures GroupedSum(ws, d, Mentions(t)) >= UsingOver(ws, d, t)
  {
    if |d| > 0 {
      GroupedMentionsBound(ws, d[1..], t);
      MentionsInUnion(RowsNamed(ws, d[0]), t);
    }
  }

  lemma {:induction false} UsingOverIsCardinality(ws: seq<RepoWork>, d: seq<string>, t: string)
    requires NoDup(d)
    ensures UsingOver(ws, d, t) == |set n | n in d && t in TechUnion(ws, n)|
  {
    var s := set n | n in d && t in TechUnion(ws, n);
    if |d| == 0 {
      assert s == {};
    } else {
      UsingOverIsCardinality(ws, d[1..], t);
      var u := set n | n in d[1..] && t in TechUnion(ws, n);
      assert d[0] !in d[1..];
      if t in TechUnion(ws, d[0]) {
        assert s == u + {d[0]};
      } else {
        assert s == u;
      }
    }
  }

  /** The number used against the "10% of repositories" threshold counts
      occurrences, which is at least the number of repositories using the
      technology: a technology repeated across rows of one repository counts
      once per row. */
  lemma OccurrencesCoverRepositories(ws: seq<RepoWork>, t: string)
    ensures Count(AllTechnologies(ws), t) >= |set n | n in RepoNames(ws) && t in TechUnion(ws, n)|
  {
    var d := RepoNames(ws);
    OccurrencesPerRow(ws, t);
    NamesCovered(ws);
    GroupedSumIsTotal(ws, d, Mentions(t));
    GroupedMentionsBound(ws, d, t);
    UsingOverIsCardinality(ws, d, t);
  }

  /** The occurrence counts add up to the number of technology entries. */
  lemma AdoptionCountsTotal(ws: seq<RepoWork>)
    ensures Sum(CountItems(AllTechnologies(ws)), Occurrences) == |AllTechnologies(ws)|
  {
    CountsSumToLength(AllTechnologies(ws));
  }
}
