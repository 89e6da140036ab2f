/** Sequence helpers shared by every analysis: occurrence counting, first-seen
    de-duplication (the iteration order of a Python dict built by insertion),
    order-preserving filtering, mapping, flattening and summation. */
module Seqs {

  /** Number of occurrences of `x` in `s`. */
  function Count<T(==)>(s: seq<T>, x: T): nat
  {
    if |s| == 0 then 0 else (if s[0] == x then 1 else 0) + Count(s[1..], x)
  }

  lemma {:induction false} CountIsMultiplicity<T>(s: seq<T>, x: T)
    ensures Count(s, x) == multiset(s)[x]
  {
    if |s| > 0 {
      assert s == [s[0]] + s[1..];
      CountIsMultiplicity(s[1..], x);
    }
  }

  lemma {:induction false} CountConcat<T>(a: seq<T>, b: seq<T>, x: T)
    ensures Count(a + b, x) == Count(a, x) + Count(b, x)
  {
    if |a| == 0 {
      assert a + b == b;
    } else {
      assert (a + b)[1..] == a[1..] + b;
      CountConcat(a[1..], b, x);
    }
  }

  lemma CountPositive<T>(s: seq<T>, x: T)
    ensures Count(s, x) > 0 <==> x in s
  {
    CountIsMultiplicity(s, x);
  }

  predicate NoDup<T(==)>(s: seq<T>)
  {
    forall i, j :: 0 <= i < j < |s| ==> s[i] != s[j]
  }

  /** The elements of `s` not in `seen`, each once, in order of first occurrence. */
  function DistinctFrom<T(==,!new)>(s: seq<T>, seen: set<T>): (r: seq<T>)
    ensures forall x :: x in r <==> x in s && x !in seen
    ensures NoDup(r)
    ensures |r| <= |s|
  {
    if |s| == 0 then []
    else if s[0] in seen then DistinctFrom(s[1..], seen)
    else [s[0]] + DistinctFrom(s[1..], seen + {s[0]})
  }

  /** The distinct elements of `s` in order of first occurrence. */
  function Distinct<T(==,!new)>(s: seq<T>): (r: seq<T>)
    ensures forall x :: x in r <==> x in s
    ensures NoDup(r)
    ensures |r| <= |s|
  {
    DistinctFrom(s, {})
  }

  lemma {:induction false} DistinctFromNoDup<T(!new)>(s: seq<T>, seen: set<T>)
    requires NoDup(s)
    requires forall x :: x in s ==> x !in seen
    ensures DistinctFrom(s, seen) == s
  {
    if |s| > 0 {
      assert s[0] !in s[1..];
      DistinctFromNoDup(s[1..], seen + {s[0]});
    }
  }

  /** A sequence without repetitions is its own de-duplication. */
  lemma DistinctOfNoDup<T(!new)>(s: seq<T>)
    requires NoDup(s)
    ensures Distinct(s) == s
  {
    DistinctFromNoDup(s, {});
  }

  lemma NoDupCardinality<T>(s: seq<T>)
    requires NoDup(s)
    ensures |set x | x in s| == |s|
  {
    if |s| > 0 {
      NoDupCardinality(s[1..]);
      assert (set x | x in s) == (set x | x in s[1..]) + {s[0]};
      assert s[0] !in s[1..];
    }
  }

  /** De-duplication keeps one element per distinct value. */
  lemma DistinctLength<T(!new)>(s: seq<T>)
    ensures |Distinct(s)| == |set x | x in s|
  {
    NoDupCardinality(Distinct(s));
    assert (set x | x in Distinct(s)) == (set x | x in s);
  }

  /** `len(set(s))`, counted through the first-seen distinct list. */
  function DistinctCount<T(==,!new)>(s: seq<T>): (k: nat)
    ensures k == |set x | x in s|
    ensures k <= |s|
    ensures |s| > 0 ==> k > 0
  {
    var d := Distinct(s);
    NoDupCardinality(d);
    assert (set x | x in d) == (set x | x in s);
    assert |s| > 0 ==> s[0] in d;
    |d|
  }

  /** Order-preserving filter, a Python list comprehension with an `if`. */
  function Filter<T(!new)>(s: seq<T>, p: T -> bool): (r: seq<T>)
    ensures |r| <= |s|
    ensures forall x :: x in r <==> x in s && p(x)
    ensures multiset(r) <= multiset(s)
  {
    if |s| == 0 then []
    else
      assert s == [s[0]] + s[1..];
      (if p(s[0]) then [s[0]] else []) + Filter(s[1..], p)
  }

  /** The filter keeps every copy of an accepted element and no copy of a
      rejected one. */
  lemma {:induction false} FilterMultiplicity<T(!new)>(s: seq<T>, p: T -> bool, x: T)
    ensures multiset(Filter(s, p))[x] == if p(x) then multiset(s)[x] else 0
  {
    if |s| > 0 {
      FilterMultiplicity(s[1..], p, x);
      assert s == [s[0]] + s[1..];
    }
  }

  lemma {:induction false} FilterConcat<T(!new)>(a: seq<T>, b: seq<T>, p: T -> bool)
    ensures Filter(a + b, p) == Filter(a, p) + Filter(b, p)
  {
    if |a| == 0 {
      assert a + b == b;
    } else {
      assert (a + b)[1..] == a[1..] + b;
      FilterConcat(a[1..], b, p);
    }
  }

  function Map<T, U>(s: seq<T>, f: T -> U): (r: seq<U>)
    ensures |r| == |s|
    ensures forall i :: 0 <= i < |s| ==> r[i] == f(s[i])
  {
    if |s| == 0 then [] else [f(s[0])] + Map(s[1..], f)
  }

  /** Concatenation of `f(x)` over `s`, a Python `list.extend` loop. */
  function FlatMap<T, U>(s: seq<T>, f: T -> seq<U>): seq<U>
  {
    if |s| == 0 then [] else f(s[0]) + FlatMap(s[1..], f)
  }

  function Sum<T>(s: seq<T>, f: T -> int): int
  {
    if |s| == 0 then 0 else f(s[0]) + Sum(s[1..], f)
  }

  function RealSum(s: seq<real>): real
  {
    if |s| == 0 then 0.0 else s[0] + RealSum(s[1..])
  }

  lemma {:induction false} SumConcat<T>(a: seq<T>, b: seq<T>, f: T -> int)
    ensures Sum(a + b, f) == Sum(a, f) + Sum(b, f)
  {
    if |a| == 0 {
      assert a + b == b;
    } else {
      assert (a + b)[1..] == a[1..] + b;
      SumConcat(a[1..], b, f);
    }
  }

  /** Summation does not depend on the order of the summands. */
  lemma {:induction false} SumPermutation<T>(s: seq<T>, t: seq<T>, f: T -> int)
    requires multiset(s) == multiset(t)
    ensures Sum(s, f) == Sum(t, f)
    decreases |s|
  {
    if |s| == 0 {
      assert |t| == |multiset(t)| == 0;
    } else {
      assert s == [s[0]] + s[1..];
      assert s[0] in multiset(t);
      var i :| 0 <= i < |t| && t[i] == s[0];
      var rest := t[..i] + t[i+1..];
      PermutationRest(s, t, i);
      assert t == t[..i] + [t[i]] + t[i+1..];
      SumPermutation(s[1..], rest, f);
      SumConcat(t[..i] + [t[i]], t[i+1..], f);
      SumConcat(t[..i], [t[i]], f);
      SumConcat(t[..i], t[i+1..], f);
    }
  }

  /** The first `n` elements of `s` (Python's `s[:n]`). */
  function Take<T>(s: seq<T>, n: nat): (r: seq<T>)
    ensures |r| == if n < |s| then n else |s|
    ensures r == s[..|r|]
  {
    if n < |s| then s[..n] else s
  }

  lemma {:induction false} NoDupCountAtMostOne<T>(s: seq<T>, x: T)
    requires NoDup(s)
    ensures Count(s, x) <= 1
  {
    if |s| > 0 {
      NoDupCountAtMostOne(s[1..], x);
      if s[0] == x {
        assert x !in s[1..];
        CountPositive(s[1..], x);
      }
    }
  }

  lemma TwoIndicesMultiplicity<T>(t: seq<T>, i: int, j: int)
    requires 0 <= i < j < |t|
    requires t[i] == t[j]
    ensures multiset(t)[t[i]] >= 2
  {
    assert t == t[..j] + t[j..];
    assert t[i] == t[..j][i];
    assert t[j] == t[j..][0];
    assert multiset(t) == multiset(t[..j]) + multiset(t[j..]);
  }

  /** Reordering keeps a sequence free of repetitions. */
  lemma NoDupPermutation<T>(s: seq<T>, t: seq<T>)
    requires NoDup(s)
    requires multiset(s) == multiset(t)
    ensures NoDup(t)
  {
    forall i, j | 0 <= i < j < |t|
      ensures t[i] != t[j]
    {
      NoDupCountAtMostOne(s, t[i]);
      CountIsMultiplicity(s, t[i]);
      if t[i] == t[j] {
        TwoIndicesMultiplicity(t, i, j);
      }
    }
  }

  /** Applying `f` elementwise keeps two reorderings of each other reorderings. */
  lemma MapPermutation<T, U>(s: seq<T>, t: seq<T>, f: T -> U)
    requires multiset(s) == multiset(t)
    ensures multiset(Map(s, f)) == multiset(Map(t, f))
  {
    MapIsFlatMap(s, f);
    MapIsFlatMap(t, f);
    FlatMapPermutation(s, t, Singleton(f));
  }

  function Singleton<T, U>(f: T -> U): T -> seq<U>
  {
    x => [f(x)]
  }

  lemma {:induction false} MapIsFlatMap<T, U>(s: seq<T>, f: T -> U)
    ensures Map(s, f) == FlatMap(s, Singleton(f))
  {
    if |s| > 0 {
      MapIsFlatMap(s[1..], f);
    }
  }

  /** Removing the matching element from both sides of a permutation leaves a
      permutation. */
  lemma PermutationRest<T>(s: seq<T>, t: seq<T>, i: nat)
    requires multiset(s) == multiset(t)
    requires 0 < |s| && i < |t| && t[i] == s[0]
    ensures multiset(s[1..]) == multiset(t[..i] + t[i+1..])
  {
    assert t == t[..i] + [t[i]] + t[i+1..];
    assert multiset(t) == multiset(t[..i]) + multiset([t[i]]) + multiset(t[i+1..]);
    assert multiset(t[..i] + t[i+1..]) == multiset(t) - multiset{s[0]};
    assert s == [s[0]] + s[1..];
    assert multiset(s) == multiset([s[0]]) + multiset(s[1..]);
  }

  lemma {:induction false} MapConcat<T, U>(a: seq<T>, b: seq<T>, f: T -> U)
    ensures Map(a + b, f) == Map(a, f) + Map(b, f)
  {
    if |a| == 0 {
      assert a + b == b;
    } else {
      assert (a + b)[1..] == a[1..] + b;
      MapConcat(a[1..], b, f);
    }
  }

  lemma {:induction false} FlatMapConcat<T, U>(a: seq<T>, b: seq<T>, f: T -> seq<U>)
    ensures FlatMap(a + b, f) == FlatMap(a, f) + FlatMap(b, f)
  {
    if |a| == 0 {
      assert a + b == b;
    } else {
      assert (a + b)[1..] == a[1..] + b;
      FlatMapConcat(a[1..], b, f);
    }
  }

  /** The arithmetic mean of `n` values summing to `total` (`np.mean`,
      without rounding). */
  function Mean(total: int, n: nat): (m: real)
    requires n > 0
    ensures m * (n as real) == total as real
  {
    total as real / n as real
  }

  lemma {:induction false} FlatMapPermutation<T, U>(s: seq<T>, t: seq<T>, f: T -> seq<U>)
    requires multiset(s) == multiset(t)
    ensures multiset(FlatMap(s, f)) == multiset(FlatMap(t, f))
    decreases |s|
  {
    if |s| == 0 {
      assert |t| == |multiset(t)| == 0;
    } else {
      assert s == [s[0]] + s[1..];
      assert s[0] in multiset(t);
      var i :| 0 <= i < |t| && t[i] == s[0];
      var rest := t[..i] + t[i+1..];
      PermutationRest(s, t, i);
      assert t == t[..i] + [t[i]] + t[i+1..];
      FlatMapPermutation(s[1..], rest, f);
      FlatMapConcat(t[..i] + [t[i]], t[i+1..], f);
      FlatMapConcat(t[..i], [t[i]], f);
      FlatMapConcat(t[..i], t[i+1..], f);
      assert FlatMap([t[i]], f) == f(t[i]) + FlatMap([], f);
      assert FlatMap([t[i]], f) == f(s[0]);
    }
  }

  /** Index of the first occurrence of `x` in `s`, or `|s|` when `x` does not
      occur. */
  function Pos<T(==)>(s: seq<T>, x: T): (i: nat)
    ensures i <= |s|
    ensures i < |s| <==> x in s
    ensures i < |s| ==> s[i] == x
    ensures x !in s[..i]
  {
    if |s| == 0 then 0
    else if s[0] == x then 0
    else
      var k := Pos(s[1..], x);
      assert s[..k + 1] == [s[0]] + s[1..][..k];
      1 + k
  }

  /** In a list without repeats, an element's first occurrence is its index. */
  lemma PosOfNoDup<T>(s: seq<T>, i: nat)
    requires NoDup(s)
    requires i < |s|
    ensures Pos(s, s[i]) == i
  {
  }

  /** `r` lists its elements in the order in which they first occur in `s`. */
  predicate FirstSeenOrder<T(==)>(s: seq<T>, r: seq<T>)
  {
    forall i, j :: 0 <= i < j < |r| ==> Pos(s, r[i]) < Pos(s, r[j])
  }

  lemma PosTail<T>(s: seq<T>, x: T)
    requires |s| > 0 && s[0] != x
    ensures Pos(s, x) == 1 + Pos(s[1..], x)
  {
  }

  /** First-seen order in `s[1..]` carries over to `s` for a list without
      `s[0]`. */
  lemma SkipKeepsOrder<T>(s: seq<T>, r: seq<T>)
    requires |s| > 0 && s[0] !in r
    requires FirstSeenOrder(s[1..], r)
    ensures FirstSeenOrder(s, r)
    ensures forall i :: 0 <= i < |r| ==> 0 < Pos(s, r[i])
  {
    forall i | 0 <= i < |r|
      ensures Pos(s, r[i]) == 1 + Pos(s[1..], r[i])
    {
      assert r[i] in r;
      PosTail(s, r[i]);
    }
  }

  /** Putting `s[0]` in front of such a list keeps first-seen order. */
  lemma ConsKeepsOrder<T>(s: seq<T>, r: seq<T>)
    requires |s| > 0 && s[0] !in r
    requires FirstSeenOrder(s[1..], r)
    ensures FirstSeenOrder(s, [s[0]] + r)
  {
    SkipKeepsOrder(s, r);
    var q := [s[0]] + r;
    forall i, j | 0 <= i < j < |q|
      ensures Pos(s, q[i]) < Pos(s, q[j])
    {
      assert q[j] == r[j - 1];
      if i > 0 {
        assert q[i] == r[i - 1];
      }
    }
  }

  lemma {:induction false} DistinctFromOrder<T(!new)>(s: seq<T>, seen: set<T>)
    ensures FirstSeenOrder(s, DistinctFrom(s, seen))
  {
    if |s| > 0 {
      var t := s[1..];
      if s[0] in seen {
        DistinctFromOrder(t, seen);
        SkipKeepsOrder(s, DistinctFrom(t, seen));
      } else {
        DistinctFromOrder(t, seen + {s[0]});
        ConsKeepsOrder(s, DistinctFrom(t, seen + {s[0]}));
      }
    }
  }

  /** De-duplication lists the elements in order of first occurrence. */
  lemma DistinctOrder<T(!new)>(s: seq<T>)
    ensures FirstSeenOrder(s, Distinct(s))
  {
    DistinctFromOrder(s, {});
  }

  /** Filtering keeps the relative order. */
  lemma {:induction false} FilterOrder<T(!new)>(s: seq<T>, d: seq<T>, p: T -> bool)
    requires FirstSeenOrder(s, d)
    ensures FirstSeenOrder(s, Filter(d, p))
  {
    if |d| > 0 {
      var rest := Filter(d[1..], p);
      FilterOrder(s, d[1..], p);
      var r := Filter(d, p);
      if p(d[0]) {
        assert r == [d[0]] + rest;
        forall i, j | 0 <= i < j < |r|
          ensures Pos(s, r[i]) < Pos(s, r[j])
        {
          assert r[j] == rest[j - 1] && r[j] in rest;
          if i == 0 {
            var k :| 0 <= k < |d[1..]| && d[1..][k] == r[j];
            assert d[k + 1] == r[j];
          }
        }
      } else {
        assert r == rest;
      }
    }
  }

  /** The first `n` elements of a list in first-seen order: how many there are,
      their order, and that every element left out occurs later than each one
      kept. */
  lemma TakeOrder<T>(s: seq<T>, d: seq<T>, n: nat)
    requires FirstSeenOrder(s, d)
    ensures FirstSeenOrder(s, Take(d, n))
    ensures forall x :: x in d && x !in Take(d, n) ==>
              forall i :: 0 <= i < |Take(d, n)| ==> Pos(s, Take(d, n)[i]) < Pos(s, x)
  {
    var r := Take(d, n);
    assert forall i :: 0 <= i < |r| ==> r[i] == d[i];
    forall x | x in d && x !in r
      ensures forall i :: 0 <= i < |r| ==> Pos(s, r[i]) < Pos(s, x)
    {
      var k :| 0 <= k < |d| && d[k] == x;
      assert k >= |r|;
    }
  }

  /** Filtering a list without repetitions leaves one without repetitions. */
  lemma {:induction false} FilterNoDup<T(!new)>(d: seq<T>, p: T -> bool)
    requires NoDup(d)
    ensures NoDup(Filter(d, p))
  {
    if |d| > 0 {
      FilterNoDup(d[1..], p);
      assert d[0] !in d[1..];
    }
  }

  /** `r` holds the first `n` distinct elements of `s` that satisfy `p`, in
      order of first occurrence (all of them when there are fewer): Python's
      `[x for x, _ in Counter(s).items() if p(x)][:n]`. */
  predicate IsFirstSeenSelection<T(==,!new)>(s: seq<T>, p: T -> bool, n: nat, r: seq<T>)
  {
    && |r| <= n
    && (|r| < n ==> forall x :: x in s && p(x) ==> x in r)
    && (forall x :: x in r ==> x in s && p(x))
    && FirstSeenOrder(s, r)
    && (forall x :: x in s && p(x) && x !in r ==> forall i :: 0 <= i < |r| ==> Pos(s, r[i]) < Pos(s, x))
  }

  /** The first `n` elements of the de-duplicated, filtered list are that
      selection. */
  lemma FirstSeenSelection<T(!new)>(s: seq<T>, p: T -> bool, n: nat)
    ensures IsFirstSeenSelection(s, p, n, Take(Filter(Distinct(s), p), n))
  {
    var c := Filter(Distinct(s), p);
    var r := Take(c, n);
    DistinctOrder(s);
    FilterOrder(s, Distinct(s), p);
    TakeOrder(s, c, n);
    assert forall i :: 0 <= i < |r| ==> r[i] == c[i];
  }

  /** No element of a list without repetitions that holds a single value is
      repeated: it has at most one element. */
  lemma NoDupOfOne<T>(s: seq<T>, x: T)
    requires NoDup(s)
    requires forall y :: y in s ==> y == x
    ensures |s| <= 1
  {
    NoDupCardinality(s);
    if x in s {
      assert (set y | y in s) == {x};
    } else {
      assert (set y | y in s) == {};
    }
  }

  /** A ratio of a positive count to a count at least as large lies in (0, 1]. */
  lemma RatioInUnitInterval(a: nat, b: nat)
    requires 0 < a <= b
    ensures 0.0 < a as real / b as real <= 1.0
  {
  }

  /** Permutations have the same elements. */
  lemma PermutationMembers<T>(a: seq<T>, b: seq<T>)
    requires multiset(a) == multiset(b)
    ensures forall x :: x in a <==> x in b
  {
    forall x
      ensures x in a <==> x in b
    {
      assert x in a <==> x in multiset(a);
      assert x in b <==> x in multiset(b);
    }
  }
}
