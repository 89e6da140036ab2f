/** The few Python `str` operations the filters and the collaboration pair keys
    rely on: code-point ordering, `lower()`, `split()` with no separator,
    `sep.join(...)` and the `in` substring test. */
module Strings {
  import opened Seqs

  /** Python's `a < b` on strings: lexicographic order on code points, a proper
      prefix coming first. */
  predicate Less(a: string, b: string)
  {
    if |a| == 0 then |b| > 0
    else if |b| == 0 then false
    else if a[0] != b[0] then a[0] < b[0]
    else Less(a[1..], b[1..])
  }

  lemma {:induction false} LessIrreflexive(a: string)
    ensures !Less(a, a)
  {
    if |a| > 0 {
      LessIrreflexive(a[1..]);
    }
  }

  lemma {:induction false} LessTransitive(a: string, b: string, c: string)
    requires Less(a, b) && Less(b, c)
    ensures Less(a, c)
  {
    if |a| > 0 && |b| > 0 && |c| > 0 && a[0] == b[0] && b[0] == c[0] {
      LessTransitive(a[1..], b[1..], c[1..]);
    }
  }

  lemma {:induction false} LessTotal(a: string, b: string)
    ensures a == b || Less(a, b) || Less(b, a)
  {
    if |a| > 0 && |b| > 0 && a[0] == b[0] {
      LessTotal(a[1..], b[1..]);
      if a[1..] == b[1..] {
        assert a == [a[0]] + a[1..] && b == [b[0]] + b[1..];
      }
    }
  }

  lemma LessAsymmetric(a: string, b: string)
    requires Less(a, b)
    ensures !Less(b, a)
  {
    if Less(b, a) {
      LessTransitive(a, b, a);
      LessIrreflexive(a);
    }
  }

  /** `str.lower()` restricted to ASCII letters. */
  function LowerChar(c: char): char
  {
    if 'A' <= c <= 'Z' then (c as int + 32) as char else c
  }

  function Lower(s: string): string
  {
    Map(s, LowerChar)
  }

  lemma LowerIdempotent(s: string)
    ensures Lower(Lower(s)) == Lower(s)
  {
  }

  lemma LowerConcat(a: string, b: string)
    ensures Lower(a + b) == Lower(a) + Lower(b)
  {
  }

  /** The ASCII characters `str.split()` treats as whitespace: tab through
      carriage return, the four separators 0x1C-0x1F and the space. */
  predicate IsSpace(c: char)
  {
    c == ' ' || ('\t' <= c <= '\r') || ('\U{1C}' <= c <= '\U{1F}')
  }

  predicate NoSpace(w: string)
  {
    forall i :: 0 <= i < |w| ==> !IsSpace(w[i])
  }

  /** `str.split()` with no separator, continuing a word already begun. */
  function SplitFrom(s: string, word: string): seq<string>
  {
    if |s| == 0 then (if |word| == 0 then [] else [word])
    else if IsSpace(s[0]) then
      (if |word| == 0 then [] else [word]) + SplitFrom(s[1..], "")
    else SplitFrom(s[1..], word + [s[0]])
  }

  /** `str.split()`: the maximal runs of non-whitespace characters. */
  function Split(s: string): seq<string>
  {
    SplitFrom(s, "")
  }

  lemma {:induction false} SplitFromWords(s: string, word: string)
    requires NoSpace(word)
    ensures forall w :: w in SplitFrom(s, word) ==> |w| > 0 && NoSpace(w)
  {
    if |s| > 0 {
      if IsSpace(s[0]) {
        SplitFromWords(s[1..], "");
      } else {
        SplitFromWords(s[1..], word + [s[0]]);
      }
    }
  }

  /** Every word `split()` produces is non-empty and holds no whitespace. */
  lemma SplitWords(s: string)
    ensures forall w :: w in Split(s) ==> |w| > 0 && NoSpace(w)
  {
    SplitFromWords(s, "");
  }

  lemma {:induction false} SplitFromAtSpace(a: string, c: char, b: string, word: string)
    requires IsSpace(c)
    ensures SplitFrom(a + [c] + b, word) == SplitFrom(a, word) + SplitFrom(b, "")
  {
    if |a| == 0 {
      assert a + [c] + b == [c] + b;
    } else {
      assert (a + [c] + b)[1..] == a[1..] + [c] + b;
      if IsSpace(a[0]) {
        SplitFromAtSpace(a[1..], c, b, "");
      } else {
        SplitFromAtSpace(a[1..], c, b, word + [a[0]]);
      }
    }
  }

  /** Splitting at a whitespace character splits the word list there. */
  lemma SplitAtSpace(a: string, c: char, b: string)
    requires IsSpace(c)
    ensures Split(a + [c] + b) == Split(a) + Split(b)
  {
    SplitFromAtSpace(a, c, b, "");
  }

  lemma {:induction false} SplitFromWord(w: string, word: string)
    requires NoSpace(w)
    requires |word + w| > 0
    ensures SplitFrom(w, word) == [word + w]
  {
    if |w| == 0 {
      assert word + w == word;
    } else {
      assert word + [w[0]] + w[1..] == word + w;
      SplitFromWord(w[1..], word + [w[0]]);
    }
  }

  /** A non-empty string without whitespace is a single word. */
  lemma SplitWord(w: string)
    requires |w| > 0 && NoSpace(w)
    ensures Split(w) == [w]
  {
    SplitFromWord(w, "");
    assert "" + w == w;
  }

  /** `sep.join(xs)`. */
  function Join(sep: string, xs: seq<string>): string
  {
    if |xs| == 0 then ""
    else if |xs| == 1 then xs[0]
    else xs[0] + sep + Join(sep, xs[1..])
  }

  /** A word found in the lower-cased head of a string is found in the
      lower-cased whole. */
  lemma ContainsLowerPrefix(x: string, y: string, t: string)
    requires Contains(Lower(x), t)
    ensures Contains(Lower(x + y), t)
  {
    LowerConcat(x, y);
    ContainsInContext("", Lower(x), Lower(y), t);
    assert "" + Lower(x) + Lower(y) == Lower(x) + Lower(y);
  }

  /** Joining a list of two or more strings puts the first in front. */
  lemma JoinFirst(sep: string, x: string, xs: seq<string>)
    requires |xs| > 0
    ensures Join(sep, [x] + xs) == x + (sep + Join(sep, xs))
  {
    assert ([x] + xs)[1..] == xs;
  }

  /** Python's `t in text` on strings: `t` occurs as a contiguous substring. */
  predicate Contains(text: string, t: string)
  {
    exists i | 0 <= i <= |text| :: OccursAt(text, t, i)
  }

  predicate OccursAt(text: string, t: string, i: int)
  {
    0 <= i && i + |t| <= |text| && text[i..i + |t|] == t
  }

  /** A substring of `x` is a substring of any text around `x`. */
  lemma ContainsInContext(a: string, x: string, b: string, t: string)
    requires Contains(x, t)
    ensures Contains(a + x + b, t)
  {
    var k :| 0 <= k <= |x| && OccursAt(x, t, k);
    var text := a + x + b;
    assert text[|a| + k..|a| + k + |t|] == x[k..k + |t|] by {
      forall m | |a| + k <= m < |a| + k + |t|
        ensures text[m] == x[m - |a|]
      {
      }
    }
    assert OccursAt(text, t, |a| + k);
  }

  /** Every joined item occurs in the joined text. */
  lemma {:induction false} JoinContainsEach(sep: string, xs: seq<string>, i: nat)
    requires i < |xs|
    ensures Contains(Join(sep, xs), xs[i])
  {
    if |xs| == 1 {
      assert OccursAt(Join(sep, xs), xs[0], 0);
    } else if i == 0 {
      var text := Join(sep, xs);
      assert text == xs[0] + (sep + Join(sep, xs[1..]));
      assert text[0..|xs[0]|] == xs[0];
      assert OccursAt(text, xs[0], 0);
    } else {
      JoinContainsEach(sep, xs[1..], i - 1);
      ContainsInContext(xs[0] + sep, Join(sep, xs[1..]), "", xs[i]);
      assert xs[0] + sep + Join(sep, xs[1..]) + "" == Join(sep, xs);
    }
  }
}
