/** Python's `sorted(xs, key=..., reverse=...)` and `list.sort`: a stable sort
    by a key that is a number or a string. With `reverse=True` the order is
    descending and elements with equal keys keep their original order. */
module Sorting {
  import opened Seqs
  import Strings

  /** The values the source sorts by: counts and ratios, or strings. */
  datatype Key = Num(r: real) | Text(s: string)

  /** Python's `<` on two keys of the same kind. */
  predicate KeyLess(a: Key, b: Key)
  {
    match a
    case Num(x) => (match b case Num(y) => x < y case Text(_) => true)
    case Text(x) => (match b case Num(_) => false case Text(y) => Strings.Less(x, y))
  }

  lemma KeyLessIrreflexive(a: Key)
    ensures !KeyLess(a, a)
  {
    if a.Text? {
      Strings.LessIrreflexive(a.s);
    }
  }

  lemma KeyLessTransitive(a: Key, b: Key, c: Key)
    requires KeyLess(a, b) && KeyLess(b, c)
    ensures KeyLess(a, c)
  {
    if a.Text? && b.Text? && c.Text? {
      Strings.LessTransitive(a.s, b.s, c.s);
    }
  }

  lemma KeyLessTotal(a: Key, b: Key)
    ensures a == b || KeyLess(a, b) || KeyLess(b, a)
  {
    if a.Text? && b.Text? {
      Strings.LessTotal(a.s, b.s);
    }
  }

  /** `a` must be placed strictly before `b`. */
  predicate Before<T>(key: T -> Key, desc: bool, a: T, b: T)
  {
    if desc then KeyLess(key(b), key(a)) else KeyLess(key(a), key(b))
  }

  lemma BeforeIrreflexive<T>(key: T -> Key, desc: bool, a: T)
    ensures !Before(key, desc, a, a)
  {
    KeyLessIrreflexive(key(a));
  }

  lemma BeforeAsymmetric<T>(key: T -> Key, desc: bool, a: T, b: T)
    requires Before(key, desc, a, b)
    ensures !Before(key, desc, b, a)
  {
    if Before(key, desc, b, a) {
      KeyLessTransitive(key(a), key(b), key(a));
      KeyLessIrreflexive(key(a));
    }
  }

  lemma KeyLessSplit(a: Key, b: Key, c: Key)
    requires KeyLess(a, c)
    ensures KeyLess(a, b) || KeyLess(b, c)
  {
    KeyLessTotal(a, b);
    if KeyLess(b, a) {
      KeyLessTransitive(b, a, c);
    }
  }

  /** "Need not precede" is transitive: a total preorder. */
  lemma NotBeforeTransitive<T>(key: T -> Key, desc: bool, a: T, b: T, c: T)
    requires !Before(key, desc, a, b) && !Before(key, desc, b, c)
    ensures !Before(key, desc, a, c)
  {
    if desc {
      if KeyLess(key(c), key(a)) {
        KeyLessSplit(key(c), key(b), key(a));
      }
    } else {
      if KeyLess(key(a), key(c)) {
        KeyLessSplit(key(a), key(b), key(c));
      }
    }
  }

  /** No element is placed after one it should precede. */
  predicate Sorted<T>(s: seq<T>, key: T -> Key, desc: bool)
  {
    forall i, j :: 0 <= i < j < |s| ==> !Before(key, desc, s[j], s[i])
  }

  /** The elements of `s` whose key is `k`, in their order in `s`. */
  function WithKey<T>(s: seq<T>, key: T -> Key, k: Key): seq<T>
  {
    if |s| == 0 then []
    else (if key(s[0]) == k then [s[0]] else []) + WithKey(s[1..], key, k)
  }

  /** Insert `x` in front of the first element it need not follow. */
  function Insert<T>(x: T, s: seq<T>, key: T -> Key, desc: bool): (r: seq<T>)
    ensures multiset(r) == multiset(s) + multiset{x}
    ensures |r| == |s| + 1
  {
    if |s| == 0 || !Before(key, desc, s[0], x) then [x] + s
    else
      assert s == [s[0]] + s[1..];
      [s[0]] + Insert(x, s[1..], key, desc)
  }

  lemma SortedCons<T>(h: T, t: seq<T>, key: T -> Key, desc: bool)
    requires Sorted(t, key, desc)
    requires forall y :: y in t ==> !Before(key, desc, y, h)
    ensures Sorted([h] + t, key, desc)
  {
    var r := [h] + t;
    forall i, j | 0 <= i < j < |r|
      ensures !Before(key, desc, r[j], r[i])
    {
      if i == 0 {
        assert r[j] == t[j - 1];
      } else {
        assert r[i] == t[i - 1] && r[j] == t[j - 1];
      }
    }
  }

  lemma {:induction false} InsertSorted<T>(x: T, s: seq<T>, key: T -> Key, desc: bool)
    requires Sorted(s, key, desc)
    ensures Sorted(Insert(x, s, key, desc), key, desc)
  {
    if |s| == 0 || !Before(key, desc, s[0], x) {
      forall y | y in s
        ensures !Before(key, desc, y, x)
      {
        var j :| 0 <= j < |s| && s[j] == y;
        if j == 0 {
          BeforeIrreflexive(key, desc, y);
        }
        NotBeforeTransitive(key, desc, y, s[0], x);
      }
      SortedCons(x, s, key, desc);
    } else {
      var t := Insert(x, s[1..], key, desc);
      InsertSorted(x, s[1..], key, desc);
      forall y | y in t
        ensures !Before(key, desc, y, s[0])
      {
        assert y in multiset(t);
        if y == x {
          BeforeAsymmetric(key, desc, s[0], x);
        } else {
          assert y in multiset(s[1..]);
          var j :| 0 <= j < |s[1..]| && s[1..][j] == y;
          assert s[j + 1] == y;
        }
      }
      SortedCons(s[0], t, key, desc);
    }
  }

  lemma {:induction false} InsertStable<T>(x: T, s: seq<T>, key: T -> Key, desc: bool, k: Key)
    ensures WithKey(Insert(x, s, key, desc), key, k)
         == (if key(x) == k then [x] else []) + WithKey(s, key, k)
  {
    if |s| == 0 || !Before(key, desc, s[0], x) {
      assert ([x] + s)[1..] == s;
    } else {
      var r1 := Insert(x, s[1..], key, desc);
      InsertStable(x, s[1..], key, desc, k);
      BeforeKeysDiffer(key, desc, s[0], x);
      assert Insert(x, s, key, desc) == [s[0]] + r1;
      WithKeyCons(s[0], r1, key, k);
      assert s == [s[0]] + s[1..];
      WithKeyCons(s[0], s[1..], key, k);
      var rest := WithKey(s[1..], key, k);
      if key(s[0]) == k {
        assert key(x) != k;
        assert WithKey(r1, key, k) == rest;
      } else {
        assert WithKey([s[0]] + r1, key, k) == WithKey(r1, key, k);
      }
    }
  }

  lemma WithKeyCons<T>(h: T, t: seq<T>, key: T -> Key, k: Key)
    ensures WithKey([h] + t, key, k) == (if key(h) == k then [h] else []) + WithKey(t, key, k)
  {
    assert ([h] + t)[0] == h && ([h] + t)[1..] == t;
  }

  lemma BeforeKeysDiffer<T>(key: T -> Key, desc: bool, a: T, b: T)
    requires Before(key, desc, a, b)
    ensures key(a) != key(b)
  {
    KeyLessIrreflexive(key(a));
  }

  /** `rank` strictly increases along `s`. */
  predicate RankIncreasing<T>(s: seq<T>, rank: T -> int)
  {
    forall i, j :: 0 <= i < j < |s| ==> rank(s[i]) < rank(s[j])
  }

  lemma {:induction false} WithKeyMembers<T>(s: seq<T>, key: T -> Key, k: Key)
    ensures forall x :: x in WithKey(s, key, k) ==> x in s && key(x) == k
    ensures forall x :: x in s && key(x) == k ==> x in WithKey(s, key, k)
  {
    if |s| > 0 {
      WithKeyMembers(s[1..], key, k);
      assert s == [s[0]] + s[1..];
    }
  }

  /** Picking the elements of one key keeps a rank increasing. */
  lemma {:induction false} WithKeyRankIncreasing<T>(s: seq<T>, key: T -> Key, k: Key, rank: T -> int)
    requires RankIncreasing(s, rank)
    ensures RankIncreasing(WithKey(s, key, k), rank)
  {
    if |s| > 0 {
      var rest := WithKey(s[1..], key, k);
      WithKeyRankIncreasing(s[1..], key, k, rank);
      WithKeyMembers(s[1..], key, k);
      if key(s[0]) == k {
        var w := [s[0]] + rest;
        forall i, j | 0 <= i < j < |w|
          ensures rank(w[i]) < rank(w[j])
        {
          assert w[j] == rest[j - 1] && w[j] in rest;
          assert w[j] in s[1..];
          if i == 0 {
            var m :| 0 <= m < |s[1..]| && s[1..][m] == w[j];
            assert s[m + 1] == w[j];
          } else {
            assert w[i] == rest[i - 1];
          }
        }
      }
    }
  }

  /** Two elements of `r` with key `k` appear in `r` in the order of their
      ranks when the elements of key `k` do. */
  lemma {:induction false} TiesFollowRank<T>(r: seq<T>, key: T -> Key, k: Key, rank: T -> int, i: nat, j: nat)
    requires RankIncreasing(WithKey(r, key, k), rank)
    requires i < j < |r| && key(r[i]) == k && key(r[j]) == k
    ensures rank(r[i]) < rank(r[j])
  {
    var rest := WithKey(r[1..], key, k);
    assert r == [r[0]] + r[1..];
    WithKeyCons(r[0], r[1..], key, k);
    var w := WithKey(r, key, k);
    if i == 0 {
      WithKeyMembers(r[1..], key, k);
      assert r[j] == r[1..][j - 1];
      var m :| 0 <= m < |rest| && rest[m] == r[j];
      assert w == [r[0]] + rest;
      assert w[m + 1] == r[j] && w[0] == r[0];
    } else {
      if key(r[0]) == k {
        assert rest == w[1..];
      } else {
        assert rest == w;
      }
      assert r[i] == r[1..][i - 1] && r[j] == r[1..][j - 1];
      TiesFollowRank(r[1..], key, k, rank, i - 1, j - 1);
    }
  }

  /** Sorting stably keeps elements with equal keys in the order of any rank
      that increases along the input. */
  lemma SortKeepsTieOrder<T>(s: seq<T>, key: T -> Key, desc: bool, rank: T -> int, r: seq<T>)
    requires RankIncreasing(s, rank)
    requires r == SortBy(s, key, desc)
    ensures forall i, j :: 0 <= i < j < |r| && key(r[i]) == key(r[j]) ==> rank(r[i]) < rank(r[j])
  {
    forall i, j | 0 <= i < j < |r| && key(r[i]) == key(r[j])
      ensures rank(r[i]) < rank(r[j])
    {
      WithKeyRankIncreasing(s, key, key(r[i]), rank);
      TiesFollowRank(r, key, key(r[i]), rank, i, j);
    }
  }

  /** Stable sort of `s` by `key`, descending when `desc`. */
  function SortBy<T>(s: seq<T>, key: T -> Key, desc: bool): (r: seq<T>)
    ensures multiset(r) == multiset(s)
    ensures |r| == |s|
    ensures Sorted(r, key, desc)
    ensures forall k :: WithKey(r, key, k) == WithKey(s, key, k)
  {
    if |s| == 0 then []
    else
      var t := SortBy(s[1..], key, desc);
      InsertSorted(s[0], t, key, desc);
      assert s == [s[0]] + s[1..];
      assert forall k :: WithKey(Insert(s[0], t, key, desc), key, k) == WithKey(s, key, k) by {
        forall k
          ensures WithKey(Insert(s[0], t, key, desc), key, k) == WithKey(s, key, k)
        {
          InsertStable(s[0], t, key, desc, k);
        }
      }
      Insert(s[0], t, key, desc)
  }

  /** The first `n` of a sorted list: nothing left out needed to precede
      anything kept (Python's `sorted(...)[:n]`). */
  lemma TopDominates<T>(s: seq<T>, key: T -> Key, desc: bool, n: nat)
    ensures forall x :: x in s ==> x in SortBy(s, key, desc)
    ensures forall i :: 0 <= i < |Take(SortBy(s, key, desc), n)| ==>
              Take(SortBy(s, key, desc), n)[i] in s
    ensures forall x :: x in s && x !in Take(SortBy(s, key, desc), n) ==>
              forall i :: 0 <= i < |Take(SortBy(s, key, desc), n)| ==>
                !Before(key, desc, x, Take(SortBy(s, key, desc), n)[i])
  {
    var r := SortBy(s, key, desc);
    var t := Take(r, n);
    forall x | x in s
      ensures x in r
    {
      assert x in multiset(s);
    }
    forall i | 0 <= i < |t|
      ensures t[i] in s
    {
      assert t[i] == r[i];
      assert r[i] in multiset(r);
    }
    forall x | x in s && x !in t
      ensures forall i :: 0 <= i < |t| ==> !Before(key, desc, x, t[i])
    {
      assert x in multiset(r);
      var j :| 0 <= j < |r| && r[j] == x;
      assert forall k :: 0 <= k < |t| ==> r[k] == t[k] != x;
      assert |t| <= j;
      forall i | 0 <= i < |t|
        ensures !Before(key, desc, x, t[i])
      {
        assert t[i] == r[i];
      }
    }
  }

  /** Keeping the first `n` of `r` keeps, for each key, a prefix of the
      elements of that key. */
  lemma {:induction false} WithKeyTake<T>(r: seq<T>, key: T -> Key, k: Key, n: nat)
    ensures WithKey(Take(r, n), key, k) <= WithKey(r, key, k)
  {
    if n > 0 && |r| > 0 {
      var t1 := Take(r[1..], n - 1);
      WithKeyTake(r[1..], key, k, n - 1);
      TakeCons(r, n);
      WithKeyCons(r[0], r[1..], key, k);
      WithKeyCons(r[0], t1, key, k);
      PrefixAppend(if key(r[0]) == k then [r[0]] else [], WithKey(t1, key, k), WithKey(r[1..], key, k));
    }
  }

  lemma TakeCons<T>(r: seq<T>, n: nat)
    requires n > 0 && |r| > 0
    ensures r == [r[0]] + r[1..]
    ensures Take(r, n) == [r[0]] + Take(r[1..], n - 1)
  {
  }

  lemma PrefixAppend<T>(h: seq<T>, a: seq<T>, b: seq<T>)
    requires a <= b
    ensures h + a <= h + b
  {
    assert (h + b)[..|h + a|] == h + a;
  }

  /** Python's `sorted(s, ...)[:n]` lists no element more often than `s` does,
      and the listed elements of each key are the first elements of that key
      in `s`, in their order in `s`: ties keep input order, also across the
      cut. */
  lemma TopKeepsInputOrder<T>(s: seq<T>, key: T -> Key, desc: bool, n: nat)
    ensures multiset(Take(SortBy(s, key, desc), n)) <= multiset(s)
    ensures forall k :: WithKey(Take(SortBy(s, key, desc), n), key, k) <= WithKey(s, key, k)
  {
    var r := SortBy(s, key, desc);
    var t := Take(r, n);
    assert r == t + r[|t|..];
    assert multiset(r) == multiset(t) + multiset(r[|t|..]);
    forall k
      ensures WithKey(t, key, k) <= WithKey(s, key, k)
    {
      WithKeyTake(r, key, k, n);
    }
  }
}
