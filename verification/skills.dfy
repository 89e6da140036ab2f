/** `InsightsEngine.analyze_skill_distribution`: how often each skill label
    occurs across contributors, the fifteen most frequent, the diversity index
    and the rare skills. */
module Skills {
  import opened Wrappers
  import opened Seqs
  import opened Counter
  import opened Records

  datatype SkillAnalysis = SkillAnalysis(
    totalUniqueSkills: nat,
    topSkills: seq<(string, nat)>,
    avgSkillsPerContributor: real,
    skillDiversityIndex: real,
    rareSkills: seq<string>,
    skillDistribution: map<string, nat>)

  /** Every contributor's skill list, concatenated (one entry per occurrence). */
  function AllSkills(cs: seq<Contributor>): seq<string>
  {
    FlatMap(cs, SkillsOf)
  }

  /** `skill_by_contributor`: username to number of skills; of several
      contributors with one username the last one wins. */
  function SkillCountByUser(cs: seq<Contributor>): (m: map<string, nat>)
    ensures m.Keys == set c | c in cs :: c.username
  {
    if |cs| == 0 then map[]
    else
      var rest := SkillCountByUser(cs[1..]);
      assert cs == [cs[0]] + cs[1..];
      if cs[0].username in rest then rest else rest[cs[0].username := |cs[0].skills|]
  }

  /** The sum of `m` over the usernames `us`. */
  function SumOver(m: map<string, nat>, us: seq<string>): nat
    requires forall u :: u in us ==> u in m
  {
    if |us| == 0 then 0 else m[us[0]] + SumOver(m, us[1..])
  }

  /** A skill is rare when it occurs in fewer than 20% as many entries as there
      are contributors (`count < len(df) * 0.2`, in exact arithmetic). */
  predicate IsRare(count: nat, contributors: nat)
  {
    (count as real) < (contributors as real) * 0.2
  }

  /** The 20% threshold stated over the integers. */
  lemma RareThresholdIsInteger(count: nat, contributors: nat)
    ensures IsRare(count, contributors) <==> 5 * count < contributors
  {
  }

  /** The condition of the rare-skill comprehension, for the skill entries
      `all` of `contributors` contributors. */
  function RareIn(all: seq<string>, contributors: nat): string -> bool
  {
    s => IsRare(Count(all, s), contributors)
  }

  /** The rare list `r` in integer terms, for the skill entries `all` of `n`
      contributors: every listed skill occurs and has `5 * count < n`; with
      fewer than ten listed, every such skill is listed; and every such skill
      left out first occurs after each listed one. */
  predicate ListsRareSkills(all: seq<string>, n: nat, r: seq<string>)
  {
    && (forall s :: s in r ==> s in all && 5 * Count(all, s) < n)
    && (|r| < 10 ==> forall s :: s in all && 5 * Count(all, s) < n ==> s in r)
    && (forall s :: s in all && 5 * Count(all, s) < n && s !in r ==>
          forall i :: 0 <= i < |r| ==> Pos(all, r[i]) < Pos(all, s))
  }

  /** Every rare skill, in first-seen order. */
  function RareSkillCandidates(all: seq<string>, contributors: nat): (r: seq<string>)
    ensures forall s :: s in r <==> s in all && IsRare(Count(all, s), contributors)
    ensures NoDup(r)
    ensures FirstSeenOrder(all, r)
  {
    var d := Distinct(all);
    FilterNoDup(d, RareIn(all, contributors));
    DistinctOrder(all);
    FilterOrder(all, d, RareIn(all, contributors));
    Filter(d, RareIn(all, contributors))
  }

  /** The skill analysis; `None` is the empty mapping returned when there are
      no contributors. */
  function AnalyzeSkillDistribution(cs: seq<Contributor>): (r: Option<SkillAnalysis>)
    ensures r.None? <==> |cs| == 0
    ensures r.Some? ==> r.value.totalUniqueSkills == |set s | s in AllSkills(cs)|
    ensures r.Some? ==> r.value.skillDistribution.Keys == set s | s in AllSkills(cs)
    ensures r.Some? ==> forall s :: s in r.value.skillDistribution ==>
              r.value.skillDistribution[s] == Count(AllSkills(cs), s)
    ensures r.Some? ==> IsMostCommon(AllSkills(cs), 15, r.value.topSkills)
    ensures r.Some? && |AllSkills(cs)| == 0 ==> r.value.skillDiversityIndex == 0.0
    ensures r.Some? && |AllSkills(cs)| > 0 ==>
              r.value.skillDiversityIndex == |set s | s in AllSkills(cs)| as real / |AllSkills(cs)| as real
    ensures r.Some? && |AllSkills(cs)| > 0 ==> 0.0 < r.value.skillDiversityIndex <= 1.0
    ensures r.Some? ==> IsFirstSeenSelection(AllSkills(cs), RareIn(AllSkills(cs), |cs|), 10, r.value.rareSkills)
    ensures r.Some? ==> ListsRareSkills(AllSkills(cs), |cs|, r.value.rareSkills)
  {
    if |cs| == 0 then None
    else
      var all := AllSkills(cs);
      Some(SkillAnalysis(
        DistinctCount(all),
        MostCommon(all, 15),
        AverageSkills(cs),
        DiversityIndex(all),
        RareSkills(all, |cs|),
        CounterMap(all)))
  }

  /** The mean of the per-username skill counts. */
  function AverageSkills(cs: seq<Contributor>): real
    requires |cs| > 0
  {
    var users := Distinct(Map(cs, UsernameOf));
    UsernamesOf(cs);
    Mean(SumOver(SkillCountByUser(cs), users), |users|)
  }

  /** Distinct skills over skill entries: in (0, 1], and 0 with no entries. */
  function DiversityIndex(all: seq<string>): (d: real)
    ensures |all| == 0 ==> d == 0.0
    ensures |all| > 0 ==> d == |set s | s in all| as real / |all| as real
    ensures |all| > 0 ==> 0.0 < d <= 1.0
  {
    DiversityBounds(all);
    DistinctLength(all);
    if |all| > 0 then |Distinct(all)| as real / |all| as real else 0.0
  }

  /** The first ten rare skills in first-seen order, each below the 20%
      threshold; fewer than ten only when there are no more, and every rare
      skill left out first occurs after each listed one. */
  function RareSkills(all: seq<string>, n: nat): (r: seq<string>)
    ensures IsFirstSeenSelection(all, RareIn(all, n), 10, r)
    ensures ListsRareSkills(all, n, r)
  {
    FirstSeenSelection(all, RareIn(all, n), 10);
    RareSelection(all, n, Take(RareSkillCandidates(all, n), 10));
    Take(RareSkillCandidates(all, n), 10)
  }

  lemma DiversityBounds(all: seq<string>)
    ensures |all| > 0 ==> 0.0 < |Distinct(all)| as real / |all| as real <= 1.0
  {
    if |all| > 0 {
      assert all[0] in Distinct(all);
      RatioInUnitInterval(|Distinct(all)|, |all|);
    }
  }

  lemma UsernamesOf(cs: seq<Contributor>)
    ensures forall u :: u in Map(cs, UsernameOf) <==> u in (set c | c in cs :: c.username)
    ensures |cs| > 0 ==> |Distinct(Map(cs, UsernameOf))| > 0
  {
    var us := Map(cs, UsernameOf);
    forall u
      ensures u in us <==> u in (set c | c in cs :: c.username)
    {
      if u in us {
        var i :| 0 <= i < |us| && us[i] == u;
        assert cs[i] in cs;
      }
      if u in (set c | c in cs :: c.username) {
        var c :| c in cs && c.username == u;
        var i :| 0 <= i < |cs| && cs[i] == c;
        assert us[i] == u;
      }
    }
    if |cs| > 0 {
      assert us[0] in Distinct(us);
    }
  }

  lemma RareSelection(all: seq<string>, n: nat, rare: seq<string>)
    requires IsFirstSeenSelection(all, RareIn(all, n), 10, rare)
    ensures ListsRareSkills(all, n, rare)
  {
    RareInIsInteger(all, n);
  }

  lemma RareInIsInteger(all: seq<string>, n: nat)
    ensures forall s :: RareIn(all, n)(s) <==> 5 * Count(all, s) < n
  {
    forall s
      ensures RareIn(all, n)(s) <==> 5 * Count(all, s) < n
    {
      RareThresholdIsInteger(Count(all, s), n);
    }
  }

  lemma {:induction false} SumOverAgree(m: map<string, nat>, m': map<string, nat>, us: seq<string>)
    requires forall u :: u in us ==> u in m && u in m' && m[u] == m'[u]
    ensures SumOver(m, us) == SumOver(m', us)
  {
    if |us| > 0 {
      SumOverAgree(m, m', us[1..]);
    }
  }

  lemma {:induction false} UniqueUsersSkillTotal(cs: seq<Contributor>)
    requires NoDup(Map(cs, UsernameOf))
    ensures forall u :: u in Map(cs, UsernameOf) ==> u in SkillCountByUser(cs)
    ensures SumOver(SkillCountByUser(cs), Map(cs, UsernameOf)) == |AllSkills(cs)|
  {
    UsernamesOf(cs);
    if |cs| > 0 {
      var us := Map(cs, UsernameOf);
      assert us[1..] == Map(cs[1..], UsernameOf);
      assert NoDup(us[1..]);
      UniqueUsersSkillTotal(cs[1..]);
      UsernamesOf(cs[1..]);
      var rest := SkillCountByUser(cs[1..]);
      assert us[0] !in us[1..];
      assert cs[0].username !in rest;
      SumOverAgree(SkillCountByUser(cs), rest, us[1..]);
    }
  }

  /** When usernames are unique the mean number of skills is the number of
      skill entries over the number of contributors; with repeated usernames
      only the last record of each username is averaged. */
  lemma AverageSkillsWithUniqueUsernames(cs: seq<Contributor>)
    requires |cs| > 0
    requires NoDup(Map(cs, UsernameOf))
    ensures AnalyzeSkillDistribution(cs).value.avgSkillsPerContributor == Mean(|AllSkills(cs)|, |cs|)
  {
    DistinctOfNoDup(Map(cs, UsernameOf));
    UniqueUsersSkillTotal(cs);
  }

  /** Skill counts, distinct skills and the rare-skill set do not depend on the
      order of the contributors. */
  lemma SkillCountsOrderIndependent(cs: seq<Contributor>, ds: seq<Contributor>)
    requires multiset(cs) == multiset(ds)
    requires |cs| > 0
    ensures |ds| > 0
    ensures AnalyzeSkillDistribution(cs).value.skillDistribution
         == AnalyzeSkillDistribution(ds).value.skillDistribution
    ensures AnalyzeSkillDistribution(cs).value.totalUniqueSkills
         == AnalyzeSkillDistribution(ds).value.totalUniqueSkills
    ensures forall s :: s in RareSkillCandidates(AllSkills(cs), |cs|) <==>
                        s in RareSkillCandidates(AllSkills(ds), |ds|)
  {
    assert |cs| == |multiset(cs)| == |multiset(ds)| == |ds|;
    FlatMapPermutation(cs, ds, SkillsOf);
    CounterMapPermutation(AllSkills(cs), AllSkills(ds));
    PermutationMembers(AllSkills(cs), AllSkills(ds));
    forall s | s in AllSkills(cs)
      ensures Count(AllSkills(cs), s) == Count(AllSkills(ds), s)
    {
      CountIsMultiplicity(AllSkills(cs), s);
      CountIsMultiplicity(AllSkills(ds), s);
    }
    assert (set s | s in AllSkills(cs)) == (set s | s in AllSkills(ds));
  }
}
