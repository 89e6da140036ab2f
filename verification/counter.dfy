/** Python's `collections.Counter` as the engine uses it: counts in first-seen
    order (`items()`, `dict(...)`) and `most_common(n)`, a stable descending
    sort by count cut to `n` entries. */
module Counter {
  import opened Seqs
  import opened Sorting

  /** `(x, Count(s, x))` for each `x` of `d`, in the order of `d`. */
  function Tally<T(==)>(s: seq<T>, d: seq<T>): (r: seq<(T, nat)>)
    ensures |r| == |d|
    ensures forall i :: 0 <= i < |r| ==> r[i] == (d[i], Count(s, d[i]))
  {
    if |d| == 0 then [] else [(d[0], Count(s, d[0]))] + Tally(s, d[1..])
  }

  /** `Counter(s).items()`: each distinct element with its number of occurrences,
      in order of first occurrence. */
  function CountItems<T(==,!new)>(s: seq<T>): seq<(T, nat)>
  {
    Tally(s, Distinct(s))
  }

  /** `dict(Counter(s))`. */
  function CounterMap<T(==,!new)>(s: seq<T>): (m: map<T, nat>)
    ensures m.Keys == set x | x in s
    ensures forall x :: x in m ==> m[x] == Count(s, x) && m[x] > 0
  {
    assert forall x :: x in s ==> Count(s, x) > 0 by {
      forall x | x in s {
        CountPositive(s, x);
      }
    }
    map x | x in s :: Count(s, x)
  }

  function CountKey<T>(p: (T, nat)): Key
  {
    Num(p.1 as real)
  }

  function KeysOf<T>(r: seq<(T, nat)>): set<T>
  {
    set i | 0 <= i < |r| :: r[i].0
  }

  predicate NonIncreasing<T>(r: seq<(T, nat)>)
  {
    forall i, j :: 0 <= i < j < |r| ==> r[i].1 >= r[j].1
  }

  lemma CountItemsFacts<T(!new)>(s: seq<T>)
    ensures NoDup(CountItems(s))
    ensures forall p :: p in CountItems(s) ==> p.0 in s && p.1 == Count(s, p.0)
    ensures forall x :: x in s ==> (x, Count(s, x)) in CountItems(s)
  {
    var d := Distinct(s);
    var items := CountItems(s);
    forall i, j | 0 <= i < j < |items|
      ensures items[i] != items[j]
    {
      assert items[i].0 == d[i] && items[j].0 == d[j];
    }
    forall x | x in s
      ensures (x, Count(s, x)) in items
    {
      var k :| 0 <= k < |d| && d[k] == x;
      assert items[k] == (x, Count(s, x));
    }
  }

  lemma SortedByCount<T>(r: seq<(T, nat)>)
    requires Sorted(r, CountKey, true)
    ensures NonIncreasing(r)
  {
    forall i, j | 0 <= i < j < |r|
      ensures r[i].1 >= r[j].1
    {
      assert !Before(CountKey, true, r[j], r[i]);
    }
  }

  /** Where the element of a counted pair first occurs in `s`. */
  function FirstSeenRank<T(==)>(s: seq<T>): ((T, nat)) -> int
  {
    (p: (T, nat)) => Pos(s, p.0)
  }

  lemma CountItemsInFirstSeenOrder<T(!new)>(s: seq<T>)
    ensures RankIncreasing(CountItems(s), FirstSeenRank(s))
  {
    var items := CountItems(s);
    var d := Distinct(s);
    DistinctOrder(s);
    forall i, j | 0 <= i < j < |items|
      ensures FirstSeenRank(s)(items[i]) < FirstSeenRank(s)(items[j])
    {
      assert items[i].0 == d[i] && items[j].0 == d[j];
    }
  }

  /** Every distinct element with its count, most frequent first; elements with
      equal counts stay in first-seen order. */
  function Ranking<T(==,!new)>(s: seq<T>): (r: seq<(T, nat)>)
    ensures |r| == |Distinct(s)|
    ensures forall p :: p in r ==> p.0 in s && p.1 == Count(s, p.0)
    ensures forall x :: x in s ==> (x, Count(s, x)) in r
    ensures NonIncreasing(r)
    ensures NoDup(r)
    ensures forall i, j :: 0 <= i < j < |r| && r[i].1 == r[j].1 ==> Pos(s, r[i].0) < Pos(s, r[j].0)
  {
    SortedItemsFacts(s);
    SortedItemsTieOrder(s);
    SortBy(CountItems(s), CountKey, true)
  }

  lemma SortedItemsFacts<T(!new)>(s: seq<T>)
    ensures var r := SortBy(CountItems(s), CountKey, true);
      && |r| == |Distinct(s)|
      && (forall p :: p in r ==> p.0 in s && p.1 == Count(s, p.0))
      && (forall x :: x in s ==> (x, Count(s, x)) in r)
      && NonIncreasing(r)
      && NoDup(r)
  {
    var items := CountItems(s);
    var r := SortBy(items, CountKey, true);
    CountItemsFacts(s);
    NoDupPermutation(items, r);
    PermutationMembers(items, r);
    SortedByCount(r);
  }

  lemma SortedItemsTieOrder<T(!new)>(s: seq<T>)
    ensures var r := SortBy(CountItems(s), CountKey, true);
      forall i, j :: 0 <= i < j < |r| && r[i].1 == r[j].1 ==> Pos(s, r[i].0) < Pos(s, r[j].0)
  {
    var r := SortBy(CountItems(s), CountKey, true);
    CountItemsInFirstSeenOrder(s);
    SortKeepsTieOrder(CountItems(s), CountKey, true, FirstSeenRank(s), r);
    forall i, j | 0 <= i < j < |r| && r[i].1 == r[j].1
      ensures Pos(s, r[i].0) < Pos(s, r[j].0)
    {
      assert CountKey(r[i]) == CountKey(r[j]);
      assert FirstSeenRank(s)(r[i]) < FirstSeenRank(s)(r[j]);
    }
  }

  lemma DistinctKeys<T>(r: seq<(T, nat)>)
    requires NoDup(r)
    requires forall i, j :: 0 <= i < |r| && 0 <= j < |r| && r[i].0 == r[j].0 ==> r[i].1 == r[j].1
    ensures forall i, j :: 0 <= i < j < |r| ==> r[i].0 != r[j].0
  {
  }

  /** The first `n` entries of a non-increasing count list dominate the rest. */
  lemma TakeDominates<T>(full: seq<(T, nat)>, n: nat, x: T, c: nat)
    requires NonIncreasing(full)
    requires (x, c) in full
    requires x !in KeysOf(Take(full, n))
    ensures forall i :: 0 <= i < |Take(full, n)| ==> c <= Take(full, n)[i].1
  {
    var r := Take(full, n);
    var j :| 0 <= j < |full| && full[j] == (x, c);
    assert forall k :: 0 <= k < |r| ==> r[k].0 in KeysOf(r);
    assert forall i :: 0 <= i < |r| ==> r[i] == full[i];
  }

  lemma TakeFacts<T>(full: seq<(T, nat)>, n: nat)
    ensures forall i :: 0 <= i < |Take(full, n)| ==> Take(full, n)[i] in full
    ensures NonIncreasing(full) ==> NonIncreasing(Take(full, n))
  {
  }

  /** `r` is what `Counter(s).most_common(n)` returns: `min(n, number of
      distinct elements)` pairs of an element of `s` and its count, no element
      twice, most frequent first, equal counts in order of first occurrence,
      and no element left out that a listed one should follow. */
  predicate IsMostCommon<T(==,!new)>(s: seq<T>, n: nat, r: seq<(T, nat)>)
  {
    && |r| == (if n < |set x | x in s| then n else |set x | x in s|)
    && (forall i :: 0 <= i < |r| ==> r[i].0 in s && r[i].1 == Count(s, r[i].0))
    && (forall i, j :: 0 <= i < j < |r| ==> r[i].0 != r[j].0)
    && NonIncreasing(r)
    && (forall i, j :: 0 <= i < j < |r| && r[i].1 == r[j].1 ==> Pos(s, r[i].0) < Pos(s, r[j].0))
    && (forall x :: x in s && x !in KeysOf(r) ==>
          forall i :: 0 <= i < |r| ==> Count(s, x) <= r[i].1)
    && (forall x :: x in s && x !in KeysOf(r) ==>
          forall i :: 0 <= i < |r| && r[i].1 == Count(s, x) ==> Pos(s, r[i].0) < Pos(s, x))
  }

  /** `Counter(s).most_common(n)`. */
  function MostCommon<T(==,!new)>(s: seq<T>, n: nat): (r: seq<(T, nat)>)
    ensures IsMostCommon(s, n, r)
  {
    TopOfRanking(s, n);
    TiesCutInFirstSeenOrder(s, n);
    DistinctLength(s);
    Take(Ranking(s), n)
  }

  lemma TopOfRanking<T(!new)>(s: seq<T>, n: nat)
    ensures var r := Take(Ranking(s), n);
      && (forall i :: 0 <= i < |r| ==> r[i].0 in s && r[i].1 == Count(s, r[i].0))
      && (forall i, j :: 0 <= i < j < |r| ==> r[i].0 != r[j].0)
      && NonIncreasing(r)
      && (forall x :: x in s && x !in KeysOf(r) ==> forall i :: 0 <= i < |r| ==> Count(s, x) <= r[i].1)
  {
    var full := Ranking(s);
    var r := Take(full, n);
    DistinctKeys(full);
    TakeFacts(full, n);
    assert forall i :: 0 <= i < |r| ==> r[i] == full[i];
    forall x | x in s && x !in KeysOf(r)
      ensures forall i :: 0 <= i < |r| ==> Count(s, x) <= r[i].1
    {
      TakeDominates(full, n, x, Count(s, x));
    }
  }

  /** Of the elements tied at the cut, those occurring first are kept. */
  lemma TiesCutInFirstSeenOrder<T(!new)>(s: seq<T>, n: nat)
    ensures var r := Take(Ranking(s), n);
      forall i, j :: 0 <= i < j < |r| && r[i].1 == r[j].1 ==> Pos(s, r[i].0) < Pos(s, r[j].0)
    ensures var r := Take(Ranking(s), n);
      forall x :: x in s && x !in KeysOf(r) ==>
        forall i :: 0 <= i < |r| && r[i].1 == Count(s, x) ==> Pos(s, r[i].0) < Pos(s, x)
  {
    var full := Ranking(s);
    var r := Take(full, n);
    assert forall k :: 0 <= k < |r| ==> r[k] == full[k];
    assert forall k :: 0 <= k < |r| ==> r[k].0 in KeysOf(r);
    forall x, i | x in s && x !in KeysOf(r) && 0 <= i < |r| && r[i].1 == Count(s, x)
      ensures Pos(s, r[i].0) < Pos(s, x)
    {
      var q :| 0 <= q < |full| && full[q] == (x, Count(s, x));
      assert i < q;
    }
  }

  /** When `n` reaches the number of distinct items, `most_common(n)` lists
      every item of the input with its count. */
  lemma MostCommonCoversAll<T(!new)>(s: seq<T>, n: nat)
    requires |Distinct(s)| <= n
    ensures forall x :: x in s ==> (x, Count(s, x)) in MostCommon(s, n)
  {
    assert MostCommon(s, n) == Ranking(s);
  }

  function Occurrences<T>(p: (T, nat)): int
  {
    p.1
  }

  lemma {:induction false} TallyOfEmpty<T>(d: seq<T>)
    ensures Sum(Tally([], d), Occurrences) == 0
  {
    if |d| > 0 {
      TallyOfEmpty(d[1..]);
    }
  }

  lemma {:induction false} TallyCons<T>(y: T, s: seq<T>, d: seq<T>)
    ensures Sum(Tally([y] + s, d), Occurrences) == Count(d, y) + Sum(Tally(s, d), Occurrences)
  {
    if |d| > 0 {
      assert ([y] + s)[1..] == s;
      TallyCons(y, s, d[1..]);
    }
  }

  lemma {:induction false} TallyTotal<T>(s: seq<T>, d: seq<T>)
    requires NoDup(d)
    requires forall x :: x in s ==> x in d
    ensures Sum(Tally(s, d), Occurrences) == |s|
  {
    if |s| == 0 {
      TallyOfEmpty(d);
    } else {
      assert s == [s[0]] + s[1..];
      TallyCons(s[0], s[1..], d);
      TallyTotal(s[1..], d);
      NoDupCountAtMostOne(d, s[0]);
      CountPositive(d, s[0]);
    }
  }

  /** The counts of a `Counter` add up to the number of counted elements. */
  lemma CountsSumToLength<T(!new)>(s: seq<T>)
    ensures Sum(CountItems(s), Occurrences) == |s|
  {
    TallyTotal(s, Distinct(s));
  }

  /** A `Counter` does not depend on the order of what it counts. */
  lemma CounterMapPermutation<T(!new)>(s: seq<T>, t: seq<T>)
    requires multiset(s) == multiset(t)
    ensures CounterMap(s) == CounterMap(t)
  {
    PermutationMembers(s, t);
    forall x | x in s
      ensures Count(s, x) == Count(t, x)
    {
      CountIsMultiplicity(s, x);
      CountIsMultiplicity(t, x);
    }
  }
}
