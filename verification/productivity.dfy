/** `InsightsEngine.calculate_productivity_metrics`: commits per repository for
    every contributor with at least one repository, the ten most productive,
    the mean and four percentiles. */
module Productivity {
  import opened Wrappers
  import opened Seqs
  import opened Sorting
  import opened Records

  datatype ProductivityEntry = ProductivityEntry(
    username: string,
    commitsPerRepo: real,
    totalCommits: int,
    totalRepos: int)

  datatype Percentiles = Percentiles(p90: real, p75: real, p50: real, p25: real)

  datatype ProductivityMetrics = ProductivityMetrics(
    topProductiveContributors: seq<ProductivityEntry>,
    avgCommitsPerRepo: real,
    productivityPercentiles: Percentiles)

  /** The exception numpy raises for the percentile of an empty list. */
  datatype ProductivityError = EmptyPercentile

  function RatioKey(e: ProductivityEntry): Key { Num(e.commitsPerRepo) }
  function RatioOf(e: ProductivityEntry): real { e.commitsPerRepo }
  function NumKey(x: real): Key { Num(x) }

  /** `total_commits / total_repos`, a true division. */
  function EntryOf(c: Contributor): ProductivityEntry
    requires c.repositoriesCount > 0
  {
    ProductivityEntry(c.username, (c.totalCommits as real) / (c.repositoriesCount as real),
                      c.totalCommits, c.repositoriesCount)
  }

  /** An entry's ratio times its repository count gives back its commits. */
  lemma EntryRatio(c: Contributor)
    requires c.repositoriesCount > 0
    ensures EntryOf(c).commitsPerRepo * (c.repositoriesCount as real) == c.totalCommits as real
    ensures EntryOf(c).username == c.username && EntryOf(c).totalRepos == c.repositoriesCount
  {
  }

  /** The contributors an entry is made for. */
  predicate HasRepositories(c: Contributor)
  {
    c.repositoriesCount > 0
  }

  /** An entry per contributor with a positive repository count, in input
      order; the others are skipped. */
  function Entries(cs: seq<Contributor>): (r: seq<ProductivityEntry>)
    ensures |r| <= |cs|
    ensures forall c :: c in cs && c.repositoriesCount > 0 ==> EntryOf(c) in r
    ensures forall e :: e in r ==> e.totalRepos > 0
  {
    if |cs| == 0 then []
    else
      (if cs[0].repositoriesCount > 0 then [EntryOf(cs[0])] else []) + Entries(cs[1..])
  }

  /** The entries are exactly those of the contributors with a repository,
      one each, in input order. */
  lemma {:induction false} EntriesFollowContributors(cs: seq<Contributor>)
    ensures |Entries(cs)| == |Filter(cs, HasRepositories)|
    ensures forall i :: 0 <= i < |Entries(cs)| ==>
              Filter(cs, HasRepositories)[i].repositoriesCount > 0 &&
              Entries(cs)[i] == EntryOf(Filter(cs, HasRepositories)[i])
  {
    if |cs| > 0 {
      EntriesFollowContributors(cs[1..]);
      var kept := Filter(cs[1..], HasRepositories);
      assert Filter(cs, HasRepositories) == (if HasRepositories(cs[0]) then [cs[0]] else []) + kept;
    }
  }

  /** The arithmetic mean of a non-empty list. */
  function RealMean(xs: seq<real>): (m: real)
    requires |xs| > 0
    ensures m * (|xs| as real) == RealSum(xs)
  {
    RealSum(xs) / (|xs| as real)
  }

  predicate Ascending(a: seq<real>)
  {
    forall i, j :: 0 <= i < j < |a| ==> a[i] <= a[j]
  }

  /** The integer part of numpy's fractional index `(n - 1) * q / 100`. */
  function Below(n: nat, q: nat): nat
    requires n > 0
  {
    ((n - 1) * q) / 100
  }

  /** The fractional part of that index, in hundredths. */
  function Hundredths(n: nat, q: nat): nat
    requires n > 0
  {
    ((n - 1) * q) % 100
  }

  lemma IndexBounds(n: nat, q: nat)
    requires n > 0 && q <= 100
    ensures Below(n, q) < n && Hundredths(n, q) < 100
    ensures Below(n, q) == n - 1 ==> Hundredths(n, q) == 0
  {
    var x := (n - 1) * q;
    MulMonotone(n - 1, q, 100);
    DivHundred(x, (n - 1) * 100);
    assert ((n - 1) * 100) / 100 == n - 1;
    assert x == 100 * (x / 100) + x % 100;
  }

  lemma IndexMonotone(n: nat, q1: nat, q2: nat)
    requires n > 0 && q1 <= q2
    ensures Below(n, q1) <= Below(n, q2)
    ensures Below(n, q1) == Below(n, q2) ==> Hundredths(n, q1) <= Hundredths(n, q2)
  {
    MulMonotone(n - 1, q1, q2);
    DivHundred((n - 1) * q1, (n - 1) * q2);
  }

  lemma MulMonotone(a: nat, b: nat, c: nat)
    requires b <= c
    ensures a * b <= a * c
  {
  }

  lemma DivHundred(x: nat, y: nat)
    requires x <= y
    ensures x / 100 <= y / 100
    ensures x / 100 == y / 100 ==> x % 100 <= y % 100
  {
  }

  /** `x + f/100 * (y - x)`. */
  function Interpolate(x: real, y: real, f: nat): real
  {
    x + (f as real / 100.0) * (y - x)
  }

  lemma InterpolateBetween(x: real, y: real, f: nat)
    requires x <= y && f < 100
    ensures x <= Interpolate(x, y, f) <= y
  {
    var t := f as real / 100.0;
    var d := y - x;
    MulNonNegative(t, d);
    MulNonNegative(1.0 - t, d);
    assert t * d + (1.0 - t) * d == d;
  }

  lemma MulNonNegative(a: real, b: real)
    requires a >= 0.0 && b >= 0.0
    ensures a * b >= 0.0
  {
  }

  lemma InterpolateMonotone(x: real, y: real, f1: nat, f2: nat)
    requires x <= y && f1 <= f2
    ensures Interpolate(x, y, f1) <= Interpolate(x, y, f2)
  {
    var t1, t2 := f1 as real / 100.0, f2 as real / 100.0;
    assert t1 <= t2;
    assert t1 * (y - x) <= t2 * (y - x);
  }

  /** numpy's default ("linear") percentile of an ascending list: the value at
      fractional index `(n - 1) * q / 100`, interpolated between neighbours. */
  function Percentile(a: seq<real>, q: nat): real
    requires |a| > 0 && q <= 100
  {
    IndexBounds(|a|, q);
    var lo := Below(|a|, q);
    if lo + 1 < |a| then Interpolate(a[lo], a[lo + 1], Hundredths(|a|, q)) else a[lo]
  }

  /** The list ascending, through the stable sort. */
  function SortAscending(xs: seq<real>): (a: seq<real>)
    ensures multiset(a) == multiset(xs)
    ensures |a| == |xs|
    ensures Ascending(a)
  {
    var a := SortBy(xs, NumKey, false);
    assert forall i, j :: 0 <= i < j < |a| ==> !Before(NumKey, false, a[j], a[i]);
    a
  }

  /** The metrics of a non-empty list of entries. */
  function MetricsOf(entries: seq<ProductivityEntry>): (m: ProductivityMetrics)
    requires |entries| > 0
    ensures IsTopTen(entries, m.topProductiveContributors)
    ensures m.avgCommitsPerRepo == RealMean(Map(entries, RatioOf))
    ensures m.productivityPercentiles == PercentilesOf(SortAscending(Map(entries, RatioOf)))
  {
    var values := Map(entries, RatioOf);
    ProductivityMetrics(TopTen(entries), RealMean(values), PercentilesOf(SortAscending(values)))
  }

  function PercentilesOf(asc: seq<real>): (p: Percentiles)
  {
    if |asc| == 0 then Percentiles(0.0, 0.0, 0.0, 0.0)
    else Percentiles(Percentile(asc, 90), Percentile(asc, 75), Percentile(asc, 50), Percentile(asc, 25))
  }

  /** The metrics; `Success(None)` is the empty mapping returned when either
      input is empty, and `Failure` is numpy's error for the percentile of an
      empty list, raised when no contributor has a repository. */
  function CalculateProductivityMetrics(cs: seq<Contributor>, ws: seq<RepoWork>)
    : (r: Result<Option<ProductivityMetrics>, ProductivityError>)
    ensures r == Success(None) <==> |cs| == 0 || |ws| == 0
    ensures r.Failure? <==> |cs| > 0 && |ws| > 0 && forall c :: c in cs ==> c.repositoriesCount <= 0
    ensures r.Success? && r.value.Some? ==> |Entries(cs)| > 0 && r.value.value == MetricsOf(Entries(cs))
  {
    if |cs| == 0 || |ws| == 0 then Success(None)
    else
      var entries := Entries(cs);
      NoEntries(cs);
      if |entries| == 0 then Failure(EmptyPercentile)
      else Success(Some(MetricsOf(entries)))
  }

  lemma NoEntries(cs: seq<Contributor>)
    ensures |Entries(cs)| == 0 <==> forall c :: c in cs ==> c.repositoriesCount <= 0
  {
    if |Entries(cs)| > 0 {
      assert Entries(cs)[0] in Entries(cs);
    }
    forall c | c in cs && c.repositoriesCount > 0
      ensures EntryOf(c) in Entries(cs)
    {
    }
  }

  /** `top` is `sorted(entries, key=ratio, reverse=True)[:10]`: ten entries
      or all of them, none listed more often than it occurs, highest ratio
      first, no entry left out above one listed, and the listed entries of
      each ratio are the first entries of that ratio in input order. */
  ghost predicate IsTopTen(entries: seq<ProductivityEntry>, top: seq<ProductivityEntry>)
  {
    && |top| == (if |entries| < 10 then |entries| else 10)
    && multiset(top) <= multiset(entries)
    && (forall i :: 0 <= i < |top| ==> top[i] in entries)
    && (forall i, j :: 0 <= i < j < |top| ==> top[i].commitsPerRepo >= top[j].commitsPerRepo)
    && (forall e :: e in entries && e !in top ==>
          forall i :: 0 <= i < |top| ==> e.commitsPerRepo <= top[i].commitsPerRepo)
    && (forall k :: WithKey(top, RatioKey, k) <= WithKey(entries, RatioKey, k))
  }

  /** The ten highest commits-per-repository entries, ties kept in input
      order. */
  function TopTen(entries: seq<ProductivityEntry>): (top: seq<ProductivityEntry>)
    ensures IsTopTen(entries, top)
  {
    var sorted := SortBy(entries, RatioKey, true);
    TopDominates(entries, RatioKey, true, 10);
    TopKeepsInputOrder(entries, RatioKey, true, 10);
    var top := Take(sorted, 10);
    assert forall i :: 0 <= i < |top| ==> top[i] == sorted[i];
    top
  }

  /** An entry whose ratio beats every other entry's ranks first. */
  lemma StrictMaximumRanksFirst(entries: seq<ProductivityEntry>, e: ProductivityEntry)
    requires e in entries
    requires forall x :: x in entries && x != e ==> x.commitsPerRepo < e.commitsPerRepo
    ensures TopTen(entries)[0] == e
  {
    var top := TopTen(entries);
    assert top[0] in entries;
    if e in top {
      var k :| 0 <= k < |top| && top[k] == e;
      assert k == 0 || top[0].commitsPerRepo >= top[k].commitsPerRepo;
    } else {
      assert top[0].commitsPerRepo >= e.commitsPerRepo;
    }
  }

  // ---- percentiles ----

  lemma PercentileBetweenNeighbours(a: seq<real>, q: nat)
    requires |a| > 0 && q <= 100 && Ascending(a)
    ensures Below(|a|, q) < |a| && a[Below(|a|, q)] <= Percentile(a, q)
    ensures Below(|a|, q) + 1 < |a| ==> Percentile(a, q) <= a[Below(|a|, q) + 1]
    ensures Below(|a|, q) + 1 == |a| ==> Percentile(a, q) == a[Below(|a|, q)]
  {
    IndexBounds(|a|, q);
    var lo := Below(|a|, q);
    if lo + 1 < |a| {
      InterpolateBetween(a[lo], a[lo + 1], Hundredths(|a|, q));
    }
  }

  /** A percentile lies between the smallest and the largest value. */
  lemma PercentileBounds(a: seq<real>, q: nat)
    requires |a| > 0 && q <= 100 && Ascending(a)
    ensures a[0] <= Percentile(a, q) <= a[|a| - 1]
  {
    PercentileBetweenNeighbours(a, q);
  }

  /** A higher percentile is never smaller. */
  lemma PercentileMonotone(a: seq<real>, q1: nat, q2: nat)
    requires |a| > 0 && q1 <= q2 <= 100 && Ascending(a)
    ensures Percentile(a, q1) <= Percentile(a, q2)
  {
    var n := |a|;
    IndexMonotone(n, q1, q2);
    IndexBounds(n, q1);
    IndexBounds(n, q2);
    var lo1, lo2 := Below(n, q1), Below(n, q2);
    PercentileBetweenNeighbours(a, q1);
    PercentileBetweenNeighbours(a, q2);
    if lo1 == lo2 {
      if lo1 + 1 < n {
        InterpolateMonotone(a[lo1], a[lo1 + 1], Hundredths(n, q1), Hundredths(n, q2));
      }
    } else {
      assert a[lo1 + 1] <= a[lo2];
    }
  }

  /** The reported percentiles are ordered and lie between the smallest and
      the largest commits-per-repository value. */
  lemma PercentilesOrdered(entries: seq<ProductivityEntry>)
    requires |entries| > 0
    ensures var p := MetricsOf(entries).productivityPercentiles;
      p.p25 <= p.p50 <= p.p75 <= p.p90
    ensures var p := MetricsOf(entries).productivityPercentiles;
      forall e :: e in entries ==> Lowest(entries) <= e.commitsPerRepo <= Highest(entries)
    ensures var p := MetricsOf(entries).productivityPercentiles;
      Lowest(entries) <= p.p25 && p.p90 <= Highest(entries)
  {
    var values := Map(entries, RatioOf);
    var asc := SortAscending(values);
    ExtremesOfSorted(values, asc);
    PercentileMonotone(asc, 25, 50);
    PercentileMonotone(asc, 50, 75);
    PercentileMonotone(asc, 75, 90);
    PercentileBounds(asc, 90);
    PercentileBounds(asc, 25);
    forall e | e in entries
      ensures Lowest(entries) <= e.commitsPerRepo <= Highest(entries)
    {
      var i :| 0 <= i < |entries| && entries[i] == e;
      assert values[i] == e.commitsPerRepo && values[i] in values;
    }
  }

  /** The smallest and the largest commits-per-repository value. */
  function Lowest(entries: seq<ProductivityEntry>): real
    requires |entries| > 0
  {
    SortAscending(Map(entries, RatioOf))[0]
  }

  function Highest(entries: seq<ProductivityEntry>): real
    requires |entries| > 0
  {
    var asc := SortAscending(Map(entries, RatioOf));
    asc[|asc| - 1]
  }

  lemma ExtremesOfSorted(values: seq<real>, asc: seq<real>)
    requires multiset(asc) == multiset(values) && Ascending(asc) && |values| > 0 && |asc| == |values|
    ensures forall x :: x in values ==> asc[0] <= x <= asc[|asc| - 1]
  {
    forall x | x in values
      ensures asc[0] <= x <= asc[|asc| - 1]
    {
      assert x in multiset(asc);
      var i :| 0 <= i < |asc| && asc[i] == x;
    }
  }

  // ---- contributors without repositories ----

  lemma {:induction false} EntriesConcat(a: seq<Contributor>, b: seq<Contributor>)
    ensures Entries(a + b) == Entries(a) + Entries(b)
  {
    if |a| == 0 {
      assert a + b == b;
    } else {
      assert (a + b)[1..] == a[1..] + b;
      EntriesConcat(a[1..], b);
    }
  }

  /** A contributor with no repository changes nothing: inserting one anywhere
      into a non-empty contributor list leaves the metrics as they were. */
  lemma ZeroRepositoryContributorIgnored(cs: seq<Contributor>, ws: seq<RepoWork>, i: nat, c: Contributor)
    requires i <= |cs| && |cs| > 0
    requires c.repositoriesCount <= 0
    ensures CalculateProductivityMetrics(cs[..i] + [c] + cs[i..], ws) == CalculateProductivityMetrics(cs, ws)
  {
    EntriesIgnoreZero(cs, i, c);
    SameEntriesSameMetrics(cs[..i] + [c] + cs[i..], cs, ws);
  }

  lemma EntriesIgnoreZero(cs: seq<Contributor>, i: nat, c: Contributor)
    requires i <= |cs|
    requires c.repositoriesCount <= 0
    ensures Entries(cs[..i] + [c] + cs[i..]) == Entries(cs)
  {
    var a, b := cs[..i], cs[i..];
    assert a + b == cs;
    calc {
      Entries(a + [c] + b);
    == { EntriesConcat(a + [c], b); }
      Entries(a + [c]) + Entries(b);
    == { ZeroAppended(a, c); }
      Entries(a) + Entries(b);
    == { EntriesConcat(a, b); }
      Entries(cs);
    }
  }

  lemma ZeroAppended(a: seq<Contributor>, c: Contributor)
    requires c.repositoriesCount <= 0
    ensures Entries(a + [c]) == Entries(a)
  {
    EntriesConcat(a, [c]);
    assert Entries([c]) == [];
    assert Entries(a) + [] == Entries(a);
  }

  lemma SameEntriesSameMetrics(ds: seq<Contributor>, cs: seq<Contributor>, ws: seq<RepoWork>)
    requires |ds| > 0 && |cs| > 0 && Entries(ds) == Entries(cs)
    ensures CalculateProductivityMetrics(ds, ws) == CalculateProductivityMetrics(cs, ws)
  {
  }
}
