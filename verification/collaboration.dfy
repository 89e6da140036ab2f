/** `InsightsEngine.analyze_collaboration_patterns`: two contributors
    collaborate once for every repository both have rows in. */
module Collaboration {
  import opened Wrappers
  import opened Seqs
  import opened Strings
  import opened Sorting
  import opened Counter
  import opened Records
  import opened Repositories

  type Pair = (string, string)

  datatype CollaborationAnalysis = CollaborationAnalysis(
    totalCollaborations: nat,
    topCollaborations: seq<(Pair, nat)>,
    mostCollaborativeRepositories: seq<(string, nat)>,
    avgCollaboratorsPerRepo: real)

  /** Some row of repository `n` belongs to contributor `a`. */
  predicate WorkedOn(ws: seq<RepoWork>, a: string, n: string)
  {
    exists w :: w in ws && w.repositoryName == n && w.contributorId == a
  }

  /** The contributor set of repository `n`, listed in first-seen order. */
  function IdsIn(ws: seq<RepoWork>, n: string): (r: seq<string>)
    ensures NoDup(r)
    ensures forall a :: a in r <==> WorkedOn(ws, a, n)
  {
    var rows := RowsNamed(ws, n);
    var ids := Map(rows, ContributorIdOf);
    assert forall a :: a in ids <==> exists w :: w in rows && w.contributorId == a by {
      forall a
        ensures a in ids <==> exists w :: w in rows && w.contributorId == a
      {
        if a in ids {
          var i :| 0 <= i < |ids| && ids[i] == a;
          assert rows[i] in rows;
        }
        if exists w :: w in rows && w.contributorId == a {
          var w :| w in rows && w.contributorId == a;
          var i :| 0 <= i < |rows| && rows[i] == w;
          assert ids[i] == a;
        }
      }
    }
    Distinct(ids)
  }

  /** `tuple(sorted([a, b]))`. */
  function Ordered(a: string, b: string): (p: Pair)
    ensures {p.0, p.1} == {a, b}
    ensures a != b ==> Less(p.0, p.1)
  {
    LessTotal(a, b);
    if Less(b, a) then (b, a) else (a, b)
  }

  /** The pairs of `x` with each later element. */
  function PairsWith(x: string, ys: seq<string>): (r: seq<Pair>)
    ensures |r| == |ys|
  {
    if |ys| == 0 then [] else [Ordered(x, ys[0])] + PairsWith(x, ys[1..])
  }

  /** The pairs `(ids[i], ids[j])`, `i < j`, each in sorted order. */
  function PairsOf(ids: seq<string>): seq<Pair>
  {
    if |ids| == 0 then [] else PairsWith(ids[0], ids[1..]) + PairsOf(ids[1..])
  }

  /** Pair occurrences, repository by repository, for the names `d`. */
  function PairStreamOver(ws: seq<RepoWork>, d: seq<string>): seq<Pair>
  {
    if |d| == 0 then [] else PairsOf(IdsIn(ws, d[0])) + PairStreamOver(ws, d[1..])
  }

  /** Every pair increment of the nested loop, in loop order. */
  function PairStream(ws: seq<RepoWork>): seq<Pair>
  {
    PairStreamOver(ws, RepoNames(ws))
  }

  /** The number of pairs among `k` contributors, `0 + 1 + ... + (k - 1)`;
      PairCountFormula shows it is `k * (k - 1) // 2`. Summing keeps the
      multiplication out of every proof that mentions a score. */
  function PairCount(k: nat): nat
  {
    if k == 0 then 0 else (k - 1) + PairCount(k - 1)
  }

  /** The pair count is the closed form the source computes. */
  lemma {:induction false} PairCountFormula(k: nat)
    ensures PairCount(k) == k * (k - 1) / 2
    ensures 2 * PairCount(k) == k * (k - 1)
  {
    if k > 0 {
      PairCountFormula(k - 1);
      assert k * (k - 1) == (k - 1) * (k - 2) + 2 * (k - 1);
    }
  }

  /** The score of repository `n`: the pair count of its contributors. */
  function Score(ws: seq<RepoWork>, n: string): nat
  {
    PairCount(|IdsIn(ws, n)|)
  }

  function ScoresOver(ws: seq<RepoWork>, d: seq<string>): (r: seq<(string, nat)>)
    ensures |r| == |d|
    ensures forall i :: 0 <= i < |d| ==> r[i] == (d[i], Score(ws, d[i]))
  {
    if |d| == 0 then [] else [(d[0], Score(ws, d[0]))] + ScoresOver(ws, d[1..])
  }

  function SizesOver(ws: seq<RepoWork>, d: seq<string>): int
  {
    if |d| == 0 then 0 else |IdsIn(ws, d[0])| + SizesOver(ws, d[1..])
  }

  /** The collaboration analysis; `None` is the empty mapping returned when
      there are no repo-work rows. */
  function AnalyzeCollaborationPatterns(ws: seq<RepoWork>): (r: Option<CollaborationAnalysis>)
    ensures r.None? <==> |ws| == 0
    ensures r.Some? ==> r.value.totalCollaborations == |set p | p in PairStream(ws)|
    ensures r.Some? ==> IsMostCommon(PairStream(ws), 10, r.value.topCollaborations)
    ensures r.Some? ==> IsTopRepositories(ws, RepoNames(ws), r.value.mostCollaborativeRepositories)
    ensures r.Some? ==> r.value.avgCollaboratorsPerRepo == Mean(SizesOver(ws, RepoNames(ws)), |RepoNames(ws)|)
  {
    if |ws| == 0 then None
    else
      var names := RepoNames(ws);
      var stream := PairStreamOver(ws, names);
      NamesCardinality(ws);
      Some(CollaborationAnalysis(
        DistinctCount(stream),
        MostCommon(stream, 10),
        MostCollaborativeRepositories(ws, names),
        Mean(SizesOver(ws, names), |names|)))
  }

  // ---- what the counters mean ----

  lemma {:induction false} PairsWithLength(ids: seq<string>)
    ensures 2 * |PairsOf(ids)| == |ids| * (|ids| - 1)
  {
    if |ids| > 0 {
      PairsWithLength(ids[1..]);
    }
  }

  /** A repository's score is the number of pair increments it contributes. */
  lemma ScoreIsPairCount(ws: seq<RepoWork>, n: string)
    ensures Score(ws, n) == |PairsOf(IdsIn(ws, n))|
    ensures Score(ws, n) == |IdsIn(ws, n)| * (|IdsIn(ws, n)| - 1) / 2
  {
    PairsWithLength(IdsIn(ws, n));
    PairCountFormula(|IdsIn(ws, n)|);
  }

  /** Every key of the counter is a sorted pair of two different contributors
      who both worked on one repository. */
  lemma {:induction false} PairsOfCanonical(ids: seq<string>)
    requires NoDup(ids)
    ensures forall p :: p in PairsOf(ids) ==> Less(p.0, p.1) && p.0 in ids && p.1 in ids
  {
    if |ids| > 0 {
      PairsOfCanonical(ids[1..]);
      PairsWithCanonical(ids[0], ids[1..]);
      assert ids[0] !in ids[1..];
    }
  }

  lemma {:induction false} PairsWithCanonical(x: string, ys: seq<string>)
    requires x !in ys
    ensures forall p :: p in PairsWith(x, ys) ==> Less(p.0, p.1) && p.0 in [x] + ys && p.1 in [x] + ys
  {
    if |ys| > 0 {
      PairsWithCanonical(x, ys[1..]);
    }
  }

  lemma {:induction false} StreamCanonical(ws: seq<RepoWork>, d: seq<string>)
    ensures forall p :: p in PairStreamOver(ws, d) ==>
              Less(p.0, p.1) && exists n :: n in d && WorkedOn(ws, p.0, n) && WorkedOn(ws, p.1, n)
  {
    if |d| > 0 {
      StreamCanonical(ws, d[1..]);
      PairsOfCanonical(IdsIn(ws, d[0]));
      forall p | p in PairStreamOver(ws, d)
        ensures Less(p.0, p.1) && exists n :: n in d && WorkedOn(ws, p.0, n) && WorkedOn(ws, p.1, n)
      {
        if p in PairsOf(IdsIn(ws, d[0])) {
          assert d[0] in d;
        } else {
          var n :| n in d[1..] && WorkedOn(ws, p.0, n) && WorkedOn(ws, p.1, n);
          assert n in d;
        }
      }
    }
  }

  /** Two sorted pairs are equal exactly when they pair the same two names. */
  lemma OrderedSame(x: string, y: string, a: string, b: string)
    requires Less(a, b)
    ensures Ordered(x, y) == (a, b) <==> (x == a && y == b) || (x == b && y == a)
  {
    LessIrreflexive(a);
    LessAsymmetric(a, b);
    if Less(y, x) {
      assert Ordered(x, y) == (y, x);
    } else {
      assert Ordered(x, y) == (x, y);
    }
  }

  lemma {:induction false} CountPairsWith(x: string, ys: seq<string>, a: string, b: string)
    requires Less(a, b)
    requires NoDup(ys)
    ensures Count(PairsWith(x, ys), (a, b))
         == if (x == a && b in ys) || (x == b && a in ys) then 1 else 0
  {
    if |ys| > 0 {
      CountPairsWith(x, ys[1..], a, b);
      OrderedSame(x, ys[0], a, b);
      assert ys[0] !in ys[1..];
      CountConcat([Ordered(x, ys[0])], PairsWith(x, ys[1..]), (a, b));
      LessIrreflexive(a);
    }
  }

  /** Within one repository a pair of different contributors is counted once
      when both are among its contributors and not at all otherwise. */
  lemma {:induction false} CountPairsOf(ids: seq<string>, a: string, b: string)
    requires Less(a, b)
    requires NoDup(ids)
    ensures Count(PairsOf(ids), (a, b)) == if a in ids && b in ids then 1 else 0
  {
    if |ids| > 0 {
      CountPairsOf(ids[1..], a, b);
      CountPairsWith(ids[0], ids[1..], a, b);
      CountConcat(PairsWith(ids[0], ids[1..]), PairsOf(ids[1..]), (a, b));
      LessIrreflexive(a);
      assert ids[0] !in ids[1..];
    }
  }

  /** The repositories among `d` that both `a` and `b` worked on. */
  function SharedOver(ws: seq<RepoWork>, d: seq<string>, a: string, b: string): nat
  {
    if |d| == 0 then 0
    else (if WorkedOn(ws, a, d[0]) && WorkedOn(ws, b, d[0]) then 1 else 0) + SharedOver(ws, d[1..], a, b)
  }

  lemma {:induction false} CountStream(ws: seq<RepoWork>, d: seq<string>, a: string, b: string)
    requires Less(a, b)
    ensures Count(PairStreamOver(ws, d), (a, b)) == SharedOver(ws, d, a, b)
  {
    if |d| > 0 {
      CountStream(ws, d[1..], a, b);
      CountPairsOf(IdsIn(ws, d[0]), a, b);
      CountConcat(PairsOf(IdsIn(ws, d[0])), PairStreamOver(ws, d[1..]), (a, b));
    }
  }

  /** The repositories both `a` and `b` worked on. */
  function SharedRepositories(ws: seq<RepoWork>, a: string, b: string): set<string>
  {
    set w | w in ws && w.contributorId == a && WorkedOn(ws, b, w.repositoryName) :: w.repositoryName
  }

  lemma {:induction false} SharedOverIsCardinality(ws: seq<RepoWork>, d: seq<string>, a: string, b: string)
    requires NoDup(d)
    ensures SharedOver(ws, d, a, b)
         == |set n | n in d && WorkedOn(ws, a, n) && WorkedOn(ws, b, n)|
  {
    var s := set n | n in d && WorkedOn(ws, a, n) && WorkedOn(ws, b, n);
    if |d| == 0 {
      assert s == {};
    } else {
      SharedOverIsCardinality(ws, d[1..], a, b);
      var t := set n | n in d[1..] && WorkedOn(ws, a, n) && WorkedOn(ws, b, n);
      assert d[0] !in d[1..];
      if WorkedOn(ws, a, d[0]) && WorkedOn(ws, b, d[0]) {
        assert s == t + {d[0]};
      } else {
        assert s == t;
      }
    }
  }

  /** The counter's value for a sorted pair of contributors is the number of
      repositories both worked on. */
  lemma CollaborationCountIsSharedRepositories(ws: seq<RepoWork>, a: string, b: string)
    requires Less(a, b)
    ensures Count(PairStream(ws), (a, b)) == |SharedRepositories(ws, a, b)|
  {
    var d := RepoNames(ws);
    CountStream(ws, d, a, b);
    SharedOverIsCardinality(ws, d, a, b);
    NamesCovered(ws);
    var s := set n | n in d && WorkedOn(ws, a, n) && WorkedOn(ws, b, n);
    assert s == SharedRepositories(ws, a, b) by {
      forall n | n in s
        ensures n in SharedRepositories(ws, a, b)
      {
        var w :| w in ws && w.repositoryName == n && w.contributorId == a;
      }
      forall n | n in SharedRepositories(ws, a, b)
        ensures n in s
      {
        var w :| w in ws && w.contributorId == a && WorkedOn(ws, b, w.repositoryName) && w.repositoryName == n;
      }
    }
  }

  /** Every counted pair is sorted and its two contributors share a
      repository; a pair sharing no repository is never counted. */
  lemma CollaborationKeys(ws: seq<RepoWork>)
    ensures forall p :: p in PairStream(ws) ==> Less(p.0, p.1) && |SharedRepositories(ws, p.0, p.1)| > 0
  {
    var d := RepoNames(ws);
    forall p | p in PairStream(ws)
      ensures Less(p.0, p.1) && |SharedRepositories(ws, p.0, p.1)| > 0
    {
      StreamCanonical(ws, d);
      CollaborationCountIsSharedRepositories(ws, p.0, p.1);
      CountPositive(PairStream(ws), p);
    }
  }

  /** The five most collaborative repositories of the distinct names `d`:
      `min(5, |d|)` names with their `C(k, 2)` score, in non-increasing
      order, dominating the rest, equal scores in order of first occurrence,
      and at the cut a left-out repository with the score of a listed one
      first occurs after it. */
  predicate IsTopRepositories(ws: seq<RepoWork>, d: seq<string>, top: seq<(string, nat)>)
  {
    ScoredTop(ws, d, top) && TiesByName(ws, d, top)
  }

  /** `min(5, |d|)` names of `d` with their scores, non-increasing, and no
      repository left out scores higher than one listed. */
  predicate ScoredTop(ws: seq<RepoWork>, d: seq<string>, top: seq<(string, nat)>)
  {
    && |top| == (if |d| < 5 then |d| else 5)
    && (forall i :: 0 <= i < |top| ==>
          top[i].0 in d && top[i].1 == Score(ws, top[i].0)
          && top[i].1 == |PairsOf(IdsIn(ws, top[i].0))|)
    && NonIncreasing(top)
    && (forall n :: n in d && n !in KeysOf(top) ==>
          forall i :: 0 <= i < |top| ==> Score(ws, n) <= top[i].1)
  }

  /** Equal scores in `top` are in the order of `d`, and at the cut a left-out
      repository with the score of a listed one comes after it in `d`. */
  predicate TiesByName(ws: seq<RepoWork>, d: seq<string>, top: seq<(string, nat)>)
  {
    && (forall i, j :: 0 <= i < j < |top| && top[i].1 == top[j].1 ==> Pos(d, top[i].0) < Pos(d, top[j].0))
    && (forall n :: n in d && n !in KeysOf(top) ==>
          forall i :: 0 <= i < |top| && top[i].1 == Score(ws, n) ==> Pos(d, top[i].0) < Pos(d, n))
  }

  /** The scores of the repositories `d` (in first-seen order), stably
      sorted by descending score and cut at five. */
  function MostCollaborativeRepositories(ws: seq<RepoWork>, d: seq<string>): (top: seq<(string, nat)>)
    requires NoDup(d)
    ensures IsTopRepositories(ws, d, top)
  {
    TopByScore(ws, d);
    TopByScoreTies(ws, d);
    Take(SortBy(ScoresOver(ws, d), CountKey, true), 5)
  }

  lemma TopByScore(ws: seq<RepoWork>, d: seq<string>)
    ensures ScoredTop(ws, d, Take(SortBy(ScoresOver(ws, d), CountKey, true), 5))
  {
    var ps := ScoresOver(ws, d);
    var sorted := SortBy(ps, CountKey, true);
    var top := Take(sorted, 5);
    TopDominates(ps, CountKey, true, 5);
    SortedByCount(sorted);
    TakeFacts(sorted, 5);
    forall i | 0 <= i < |top|
      ensures top[i].0 in d && top[i].1 == Score(ws, top[i].0)
              && top[i].1 == |PairsOf(IdsIn(ws, top[i].0))|
    {
      var k :| 0 <= k < |ps| && ps[k] == top[i];
      assert d[k] in d;
      ScoreIsPairCount(ws, top[i].0);
    }
    forall n | n in d && n !in KeysOf(top)
      ensures forall i :: 0 <= i < |top| ==> Score(ws, n) <= top[i].1
    {
      var k :| 0 <= k < |d| && d[k] == n;
      var p := ps[k];
      assert p in ps;
      assert p !in top by {
        assert forall q :: q in top ==> q.0 in KeysOf(top);
      }
    }
  }

  lemma ScoresInNameOrder(ws: seq<RepoWork>, d: seq<string>)
    requires NoDup(d)
    ensures RankIncreasing(ScoresOver(ws, d), FirstSeenRank(d))
  {
    var ps := ScoresOver(ws, d);
    forall i, j | 0 <= i < j < |ps|
      ensures FirstSeenRank(d)(ps[i]) < FirstSeenRank(d)(ps[j])
    {
      PosOfNoDup(d, i);
      PosOfNoDup(d, j);
    }
  }

  /** Over names listed once, the stable sort keeps equal scores in the order
      of the names, inside the five and across the cut. */
  lemma TopByScoreTies(ws: seq<RepoWork>, d: seq<string>)
    requires NoDup(d)
    ensures TiesByName(ws, d, Take(SortBy(ScoresOver(ws, d), CountKey, true), 5))
  {
    var sorted := SortBy(ScoresOver(ws, d), CountKey, true);
    ScoresInNameOrder(ws, d);
    SortKeepsTieOrder(ScoresOver(ws, d), CountKey, true, FirstSeenRank(d), sorted);
    TieCutByName(ws, d, sorted);
  }

  lemma TieCutByName(ws: seq<RepoWork>, d: seq<string>, sorted: seq<(string, nat)>)
    requires multiset(sorted) == multiset(ScoresOver(ws, d))
    requires forall i, j :: 0 <= i < j < |sorted| && CountKey(sorted[i]) == CountKey(sorted[j]) ==>
               FirstSeenRank(d)(sorted[i]) < FirstSeenRank(d)(sorted[j])
    ensures TiesByName(ws, d, Take(sorted, 5))
  {
    TiesInsideTop(d, sorted);
    TiesAcrossCut(ws, d, sorted);
  }

  lemma TiesInsideTop(d: seq<string>, sorted: seq<(string, nat)>)
    requires forall i, j :: 0 <= i < j < |sorted| && CountKey(sorted[i]) == CountKey(sorted[j]) ==>
               FirstSeenRank(d)(sorted[i]) < FirstSeenRank(d)(sorted[j])
    ensures var top := Take(sorted, 5);
      forall i, j :: 0 <= i < j < |top| && top[i].1 == top[j].1 ==> Pos(d, top[i].0) < Pos(d, top[j].0)
  {
    var top := Take(sorted, 5);
    forall i, j | 0 <= i < j < |top| && top[i].1 == top[j].1
      ensures Pos(d, top[i].0) < Pos(d, top[j].0)
    {
      assert top[i] == sorted[i] && top[j] == sorted[j];
      assert CountKey(sorted[i]) == CountKey(sorted[j]);
    }
  }

  lemma TiesAcrossCut(ws: seq<RepoWork>, d: seq<string>, sorted: seq<(string, nat)>)
    requires multiset(sorted) == multiset(ScoresOver(ws, d))
    requires forall i, j :: 0 <= i < j < |sorted| && CountKey(sorted[i]) == CountKey(sorted[j]) ==>
               FirstSeenRank(d)(sorted[i]) < FirstSeenRank(d)(sorted[j])
    ensures var top := Take(sorted, 5);
      forall n :: n in d && n !in KeysOf(top) ==>
        forall i :: 0 <= i < |top| && top[i].1 == Score(ws, n) ==> Pos(d, top[i].0) < Pos(d, n)
  {
    var top := Take(sorted, 5);
    forall n, i | n in d && n !in KeysOf(top) && 0 <= i < |top| && top[i].1 == Score(ws, n)
      ensures Pos(d, top[i].0) < Pos(d, n)
    {
      LeftOutTieComesLater(ws, d, sorted, n, i);
    }
  }

  lemma LeftOutTieComesLater(ws: seq<RepoWork>, d: seq<string>, sorted: seq<(string, nat)>, n: string, i: nat)
    requires multiset(sorted) == multiset(ScoresOver(ws, d))
    requires forall i, j :: 0 <= i < j < |sorted| && CountKey(sorted[i]) == CountKey(sorted[j]) ==>
               FirstSeenRank(d)(sorted[i]) < FirstSeenRank(d)(sorted[j])
    requires n in d && n !in KeysOf(Take(sorted, 5))
    requires i < |Take(sorted, 5)| && Take(sorted, 5)[i].1 == Score(ws, n)
    ensures Pos(d, Take(sorted, 5)[i].0) < Pos(d, n)
  {
    var q := LeftOutIndex(ws, d, sorted, n);
    assert Take(sorted, 5)[i] == sorted[i];
    assert CountKey(sorted[i]) == CountKey(sorted[q]);
  }

  /** A repository left out of the five sits after the cut in the sorted
      scores. */
  lemma LeftOutIndex(ws: seq<RepoWork>, d: seq<string>, sorted: seq<(string, nat)>, n: string) returns (q: nat)
    requires multiset(sorted) == multiset(ScoresOver(ws, d))
    requires n in d && n !in KeysOf(Take(sorted, 5))
    ensures |Take(sorted, 5)| <= q < |sorted| && sorted[q] == (n, Score(ws, n))
  {
    var ps := ScoresOver(ws, d);
    var top := Take(sorted, 5);
    var k :| 0 <= k < |d| && d[k] == n;
    assert ps[k] == (n, Score(ws, n));
    assert ps[k] in multiset(sorted);
    q :| 0 <= q < |sorted| && sorted[q] == ps[k];
    assert forall p :: 0 <= p < |top| ==> top[p] == sorted[p] && top[p].0 in KeysOf(top);
  }

  /** The stream holds one increment per pair per repository: its length is
      the sum of the repository scores. */
  lemma {:induction false} StreamLength(ws: seq<RepoWork>, d: seq<string>)
    ensures |PairStreamOver(ws, d)| == Sum(ScoresOver(ws, d), Occurrences)
  {
    if |d| > 0 {
      StreamLength(ws, d[1..]);
      ScoreIsPairCount(ws, d[0]);
      assert ScoresOver(ws, d)[1..] == ScoresOver(ws, d[1..]);
    }
  }
}
