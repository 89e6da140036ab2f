/** `InsightsEngine.generate_recommendations`: four lists of advice sentences,
    three per category whose analysis produced a result, naming up to three
    skills or technologies from that analysis. */
module Recommendations {
  import opened Seqs
  import opened Strings
  import opened Records
  import Skills
  import Technology
  import Collaboration

  datatype Recommendations = Recommendations(
    teamComposition: seq<string>,
    skillDevelopment: seq<string>,
    processImprovement: seq<string>,
    technologyAdoption: seq<string>)

  function LabelOf(p: (string, nat)): string { p.0 }

  /** `', '.join(xs[:3])`. */
  function FirstThree(xs: seq<string>): string
  {
    Join(", ", Take(xs, 3))
  }

  function TeamComposition(topSkills: seq<string>, rareSkills: seq<string>): seq<string>
  {
    [ "Consider hiring developers with " + FirstThree(topSkills) + " skills for high-demand areas",
      "Recruit specialists in " + FirstThree(rareSkills) + " for niche expertise",
      "Focus on full-stack developers to improve team versatility" ]
  }

  function SkillDevelopment(emerging: seq<string>): seq<string>
  {
    [ "Provide training in " + FirstThree(emerging) + " for future readiness",
      "Encourage cross-training between frontend and backend technologies",
      "Implement mentorship programs for knowledge transfer" ]
  }

  const ProcessImprovement: seq<string> := [
    "Implement code review processes to increase collaboration",
    "Create cross-functional teams for better knowledge sharing",
    "Establish regular tech talks and knowledge sharing sessions" ]

  function TechnologyAdoption(popular: seq<string>): seq<string>
  {
    [ "Standardize on " + FirstThree(popular) + " for consistency",
      "Evaluate modern alternatives to legacy technologies",
      "Implement technology decision frameworks for consistency" ]
  }

  /** Team-composition advice from the skill analysis, if there is one. */
  function TeamAdvice(cs: seq<Contributor>): (r: seq<string>)
    ensures |cs| > 0 <==> |r| == 3
    ensures |cs| == 0 <==> r == []
  {
    var skills := Skills.AnalyzeSkillDistribution(cs);
    if skills.Some? then TeamComposition(Map(skills.value.topSkills, LabelOf), skills.value.rareSkills) else []
  }

  /** Training advice from the technology analysis, if there is one. */
  function TrainingAdvice(ws: seq<RepoWork>): (r: seq<string>)
    ensures |ws| > 0 <==> |r| == 3
    ensures |ws| == 0 <==> r == []
  {
    var tech := Technology.AnalyzeTechnologyTrends(ws);
    if tech.Some? then SkillDevelopment(tech.value.emergingTechnologies) else []
  }

  /** Process advice, given whenever the collaboration analysis exists. */
  function ProcessAdvice(ws: seq<RepoWork>): (r: seq<string>)
    ensures |ws| > 0 ==> r == ProcessImprovement
    ensures |ws| == 0 ==> r == []
  {
    var collab := Collaboration.AnalyzeCollaborationPatterns(ws);
    if collab.Some? then ProcessImprovement else []
  }

  /** Standardisation advice from the technology analysis, if there is one. */
  function AdoptionAdvice(ws: seq<RepoWork>): (r: seq<string>)
    ensures |ws| > 0 <==> |r| == 3
    ensures |ws| == 0 <==> r == []
  {
    var tech := Technology.AnalyzeTechnologyTrends(ws);
    if tech.Some? then TechnologyAdoption(Map(tech.value.popularTechnologies, LabelOf)) else []
  }

  /** The recommendations. With no contributors every list is empty; the
      team-composition advice needs the skill analysis, and the other three
      categories need the technology or collaboration analysis, which exist
      only when there are repo-work rows. */
  function GenerateRecommendations(cs: seq<Contributor>, ws: seq<RepoWork>): (r: Recommendations)
    ensures |cs| == 0 ==> r == Recommendations([], [], [], [])
    ensures |cs| > 0 ==> |r.teamComposition| == 3
    ensures |cs| > 0 && |ws| > 0 ==>
              |r.skillDevelopment| == 3 && r.processImprovement == ProcessImprovement && |r.technologyAdoption| == 3
    ensures |ws| == 0 ==> r.skillDevelopment == [] && r.processImprovement == [] && r.technologyAdoption == []
  {
    if |cs| == 0 then Recommendations([], [], [], [])
    else Recommendations(TeamAdvice(cs), TrainingAdvice(ws), ProcessAdvice(ws), AdoptionAdvice(ws))
  }

  /** Each of the first three names occurs in a sentence built around them. */
  lemma SentenceNamesFirstThree(prefix: string, xs: seq<string>, suffix: string)
    ensures forall i :: 0 <= i < |xs| && i < 3 ==> Contains(prefix + FirstThree(xs) + suffix, xs[i])
  {
    forall i | 0 <= i < |xs| && i < 3
      ensures Contains(prefix + FirstThree(xs) + suffix, xs[i])
    {
      assert Take(xs, 3)[i] == xs[i];
      JoinContainsEach(", ", Take(xs, 3), i);
      ContainsInContext(prefix, FirstThree(xs), suffix, xs[i]);
    }
  }

  lemma LabelsNamed(ps: seq<(string, nat)>, text: string)
    requires forall i :: 0 <= i < |Map(ps, LabelOf)| && i < 3 ==> Contains(text, Map(ps, LabelOf)[i])
    ensures forall i :: 0 <= i < |ps| && i < 3 ==> Contains(text, ps[i].0)
  {
    assert forall i :: 0 <= i < |ps| ==> Map(ps, LabelOf)[i] == ps[i].0;
  }

  /** The hiring sentence names the first three top skills. */
  lemma HiringNamesTopSkills(top: seq<(string, nat)>, rare: seq<string>)
    ensures forall i :: 0 <= i < |top| && i < 3 ==> Contains(TeamComposition(Map(top, LabelOf), rare)[0], top[i].0)
  {
    var prefix, suffix := "Consider hiring developers with ", " skills for high-demand areas";
    SentenceNamesFirstThree(prefix, Map(top, LabelOf), suffix);
    LabelsNamed(top, prefix + FirstThree(Map(top, LabelOf)) + suffix);
  }

  /** The recruiting sentence names the first three rare skills. */
  lemma RecruitingNamesRareSkills(top: seq<string>, rare: seq<string>)
    ensures forall i :: 0 <= i < |rare| && i < 3 ==> Contains(TeamComposition(top, rare)[1], rare[i])
  {
    SentenceNamesFirstThree("Recruit specialists in ", rare, " for niche expertise");
  }

  /** The hiring advice names the three most common skills and the recruiting
      advice the first three rare skills. */
  lemma TeamAdviceNamesSkills(cs: seq<Contributor>)
    requires |cs| > 0
    ensures var s := Skills.AnalyzeSkillDistribution(cs).value;
      (forall i :: 0 <= i < |s.topSkills| && i < 3 ==> Contains(TeamAdvice(cs)[0], s.topSkills[i].0)) &&
      (forall i :: 0 <= i < |s.rareSkills| && i < 3 ==> Contains(TeamAdvice(cs)[1], s.rareSkills[i]))
  {
    var s := Skills.AnalyzeSkillDistribution(cs).value;
    assert TeamAdvice(cs) == TeamComposition(Map(s.topSkills, LabelOf), s.rareSkills);
    HiringNamesTopSkills(s.topSkills, s.rareSkills);
    RecruitingNamesRareSkills(Map(s.topSkills, LabelOf), s.rareSkills);
  }

  /** The training advice names the first three emerging technologies. */
  lemma TrainingAdviceNamesEmerging(ws: seq<RepoWork>)
    requires |ws| > 0
    ensures var t := Technology.AnalyzeTechnologyTrends(ws).value;
      forall i :: 0 <= i < |t.emergingTechnologies| && i < 3 ==>
        Contains(TrainingAdvice(ws)[0], t.emergingTechnologies[i])
  {
    var t := Technology.AnalyzeTechnologyTrends(ws).value;
    assert TrainingAdvice(ws) == SkillDevelopment(t.emergingTechnologies);
    DevelopmentNamesTechnologies(t.emergingTechnologies);
  }

  /** The standardisation advice names the three most used technologies. */
  lemma AdoptionAdviceNamesPopular(ws: seq<RepoWork>)
    requires |ws| > 0
    ensures var t := Technology.AnalyzeTechnologyTrends(ws).value;
      forall i :: 0 <= i < |t.popularTechnologies| && i < 3 ==>
        Contains(AdoptionAdvice(ws)[0], t.popularTechnologies[i].0)
  {
    var t := Technology.AnalyzeTechnologyTrends(ws).value;
    assert AdoptionAdvice(ws) == TechnologyAdoption(Map(t.popularTechnologies, LabelOf));
    AdoptionNamesTechnologies(t.popularTechnologies);
  }

  lemma DevelopmentNamesTechnologies(emerging: seq<string>)
    ensures forall i :: 0 <= i < |emerging| && i < 3 ==> Contains(SkillDevelopment(emerging)[0], emerging[i])
  {
    SentenceNamesFirstThree("Provide training in ", emerging, " for future readiness");
  }

  lemma AdoptionNamesTechnologies(popular: seq<(string, nat)>)
    ensures forall i :: 0 <= i < |popular| && i < 3 ==>
              Contains(TechnologyAdoption(Map(popular, LabelOf))[0], popular[i].0)
  {
    var prefix, suffix := "Standardize on ", " for consistency";
    SentenceNamesFirstThree(prefix, Map(popular, LabelOf), suffix);
    LabelsNamed(popular, prefix + FirstThree(Map(popular, LabelOf)) + suffix);
  }
}
