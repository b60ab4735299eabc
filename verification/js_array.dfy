/**
 * The array built-ins the pages use, over immutable sequences:
 * `reduce` with `+` from 0, `map`, `filter`, `slice(0, n)` and the
 * `[...new Set(xs)]` idiom for removing duplicates in first-seen order.
 */
module JsArray {

  /** `xs.reduce((sum, x) => sum + x, 0)`: the running total, left to right. */
  function Sum(xs: seq<int>): int
  {
    if |xs| == 0 then 0 else Sum(xs[..|xs| - 1]) + xs[|xs| - 1]
  }

  /** `reduce` itself is a loop carrying an accumulator; it computes Sum. */
  method ReduceSum(xs: seq<int>) returns (acc: int)
    ensures acc == Sum(xs)
  {
    acc := 0;
    var i := 0;
    while i < |xs|
      invariant 0 <= i <= |xs|
      invariant acc == Sum(xs[..i])
    {
      assert xs[..i + 1][..i] == xs[..i];
      acc := acc + xs[i];
      i := i + 1;
    }
    assert xs[..|xs|] == xs;
  }

  /** A total of a concatenation is the sum of the two totals, so the
      order in which records arrive does not change a sum. */
  lemma {:induction false} SumAppend(a: seq<int>, b: seq<int>)
    ensures Sum(a + b) == Sum(a) + Sum(b)
    decreases |b|
  {
    if |b| == 0 {
      assert a + b == a;
    } else {
      var b' := b[..|b| - 1];
      assert (a + b)[..|a + b| - 1] == a + b';
      SumAppend(a, b');
    }
  }

  /** If every element lies in [lo, hi], the sum lies in [n*lo, n*hi]. */
  lemma {:induction false} SumBounds(xs: seq<int>, lo: int, hi: int)
    requires forall i :: 0 <= i < |xs| ==> lo <= xs[i] <= hi
    ensures |xs| * lo <= Sum(xs) <= |xs| * hi
  {
    if |xs| > 0 {
      var front := xs[..|xs| - 1];
      SumBounds(front, lo, hi);
      assert |xs| * lo == |front| * lo + lo;
      assert |xs| * hi == |front| * hi + hi;
    }
  }

  /** `xs.map(f)`. */
  function Map<T, U>(xs: seq<T>, f: T -> U): (r: seq<U>)
    ensures |r| == |xs|
    ensures forall i :: 0 <= i < |xs| ==> r[i] == f(xs[i])
  {
    seq(|xs|, i requires 0 <= i < |xs| => f(xs[i]))
  }

  /** Mapping distributes over concatenation. */
  lemma MapAppend<T, U>(a: seq<T>, b: seq<T>, f: T -> U)
    ensures Map(a + b, f) == Map(a, f) + Map(b, f)
  {
  }

  /** The values of a map are exactly the images of the elements. */
  lemma MapMembership<T, U>(xs: seq<T>, f: T -> U, y: U)
    ensures y in Map(xs, f) <==> exists x :: x in xs && f(x) == y
  {
    var r := Map(xs, f);
    if y in r {
      var i :| 0 <= i < |r| && r[i] == y;
      assert xs[i] in xs;
    }
    if exists x :: x in xs && f(x) == y {
      var x :| x in xs && f(x) == y;
      var i :| 0 <= i < |xs| && xs[i] == x;
      assert r[i] == y;
    }
  }

  /** `xs.filter(p)`: the elements that pass, in their original order. */
  function Filter<T>(xs: seq<T>, p: T -> bool): (r: seq<T>)
    ensures |r| <= |xs|
    ensures forall i :: 0 <= i < |r| ==> r[i] in xs && p(r[i])
    ensures forall i :: 0 <= i < |xs| && p(xs[i]) ==> xs[i] in r
  {
    if |xs| == 0 then []
    else (if p(xs[0]) then [xs[0]] else []) + Filter(xs[1..], p)
  }

  /** `a` can be obtained from `b` by deleting elements: same relative order. */
  predicate IsSubsequence<T(==)>(a: seq<T>, b: seq<T>)
    decreases |b|
  {
    |a| == 0 ||
    (|b| > 0 && ((a[0] == b[0] && IsSubsequence(a[1..], b[1..])) || IsSubsequence(a, b[1..])))
  }

  /** Filtering only deletes: the result keeps the input order. */
  lemma {:induction false} FilterIsSubsequence<T>(xs: seq<T>, p: T -> bool)
    ensures IsSubsequence(Filter(xs, p), xs)
  {
    if |xs| > 0 {
      FilterIsSubsequence(xs[1..], p);
      var rest := Filter(xs[1..], p);
      if p(xs[0]) {
        assert Filter(xs, p) == [xs[0]] + rest;
        assert ([xs[0]] + rest)[1..] == rest;
      } else {
        assert Filter(xs, p) == rest;
      }
    }
  }

  /** Each element that passes keeps its multiplicity; the others vanish. */
  lemma {:induction false} FilterCount<T>(xs: seq<T>, p: T -> bool, x: T)
    ensures multiset(Filter(xs, p))[x] == if p(x) then multiset(xs)[x] else 0
  {
    if |xs| > 0 {
      FilterCount(xs[1..], p, x);
      var head := if p(xs[0]) then [xs[0]] else [];
      assert Filter(xs, p) == head + Filter(xs[1..], p);
      assert multiset(Filter(xs, p)) == multiset(head) + multiset(Filter(xs[1..], p));
      assert xs == [xs[0]] + xs[1..];
      assert multiset(xs) == multiset([xs[0]]) + multiset(xs[1..]);
    }
  }

  /** Filtering distributes over concatenation. */
  lemma {:induction false} FilterAppend<T>(a: seq<T>, b: seq<T>, p: T -> bool)
    ensures Filter(a + b, p) == Filter(a, p) + Filter(b, p)
  {
    if |a| > 0 {
      assert (a + b)[0] == a[0];
      assert (a + b)[1..] == a[1..] + b;
      FilterAppend(a[1..], b, p);
    } else {
      assert a + b == b;
    }
  }

  /** When every element passes, filtering returns its input unchanged. */
  lemma {:induction false} FilterAllPass<T>(xs: seq<T>, p: T -> bool)
    requires forall i :: 0 <= i < |xs| ==> p(xs[i])
    ensures Filter(xs, p) == xs
  {
    if |xs| > 0 {
      FilterAllPass(xs[1..], p);
      assert [xs[0]] + xs[1..] == xs;
    }
  }

  /** The filtered length equals the input length exactly when every element passes. */
  lemma {:induction false} FilterKeepsAllIff<T>(xs: seq<T>, p: T -> bool)
    ensures |Filter(xs, p)| == |xs| <==> forall i :: 0 <= i < |xs| ==> p(xs[i])
  {
    if |xs| > 0 {
      FilterKeepsAllIff(xs[1..], p);
      assert forall i :: 1 <= i < |xs| ==> xs[1..][i - 1] == xs[i];
      if !p(xs[0]) {
        assert |Filter(xs, p)| <= |xs| - 1;
      }
    }
  }

  /** The positions of xs whose element passes p. */
  function PassingIndices<T>(xs: seq<T>, p: T -> bool): set<int>
  {
    set i | 0 <= i < |xs| && p(xs[i])
  }

  /** Extending xs by one element adds its position exactly when it passes. */
  lemma PassingIndicesLast<T>(xs: seq<T>, p: T -> bool)
    requires |xs| > 0
    ensures var n := |xs| - 1;
      |PassingIndices(xs, p)| == |PassingIndices(xs[..n], p)| + (if p(xs[n]) then 1 else 0)
  {
    var n := |xs| - 1;
    var all := PassingIndices(xs, p);
    var before := PassingIndices(xs[..n], p);
    var last: set<int> := if p(xs[n]) then {n} else {};
    forall i | i in all ensures i in before + last {
      if i < n { assert xs[..n][i] == xs[i]; }
    }
    forall i | i in before + last ensures i in all {
      if i < n { assert xs[..n][i] == xs[i]; }
    }
    assert all == before + last;
    assert before !! last;
  }

  /** The filtered length is the number of positions whose element passes. */
  lemma {:induction false} FilterLength<T>(xs: seq<T>, p: T -> bool)
    ensures |Filter(xs, p)| == |PassingIndices(xs, p)|
    decreases |xs|
  {
    if |xs| == 0 {
      assert PassingIndices(xs, p) == {};
    } else {
      var n := |xs| - 1;
      var front := xs[..n];
      FilterLength(front, p);
      assert xs == front + [xs[n]];
      FilterAppend(front, [xs[n]], p);
      assert Filter([xs[n]], p) == if p(xs[n]) then [xs[n]] else [];
      PassingIndicesLast(xs, p);
    }
  }

  /** Filtering twice by the same predicate is filtering once. */
  lemma FilterIdempotent<T>(xs: seq<T>, p: T -> bool)
    ensures Filter(Filter(xs, p), p) == Filter(xs, p)
  {
    var r := Filter(xs, p);
    assert forall i :: 0 <= i < |r| ==> r[i] in r;
    FilterAllPass(r, p);
  }

  /** A predicate that implies another on the input selects a subsequence of
      what the weaker predicate selects. */
  lemma {:induction false} FilterNarrower<T>(xs: seq<T>, p: T -> bool, q: T -> bool)
    requires forall i :: 0 <= i < |xs| && p(xs[i]) ==> q(xs[i])
    ensures Filter(xs, p) == Filter(Filter(xs, q), p)
    ensures IsSubsequence(Filter(xs, p), Filter(xs, q))
  {
    if |xs| > 0 {
      var tail := xs[1..];
      assert forall i :: 0 <= i < |tail| ==> tail[i] == xs[i + 1];
      FilterNarrower(tail, p, q);
      var fq := Filter(xs, q);
      if q(xs[0]) {
        assert fq == [xs[0]] + Filter(tail, q);
        FilterAppend([xs[0]], Filter(tail, q), p);
        assert Filter([xs[0]], p) == (if p(xs[0]) then [xs[0]] else []) + Filter([], p);
      } else {
        assert fq == Filter(tail, q);
      }
    }
    FilterIsSubsequence(Filter(xs, q), p);
  }

  /** `xs.slice(0, n)` for n >= 0: the first min(n, |xs|) elements. */
  function Take<T>(xs: seq<T>, n: nat): (r: seq<T>)
    ensures |r| == if n < |xs| then n else |xs|
    ensures forall i :: 0 <= i < |r| ==> r[i] == xs[i]
  {
    if n < |xs| then xs[..n] else xs
  }

  predicate NoDuplicates<T(==)>(xs: seq<T>)
  {
    forall i, j :: 0 <= i < j < |xs| ==> xs[i] != xs[j]
  }

  /** Index of the first occurrence of x in xs. */
  function FirstIndex<T(==)>(xs: seq<T>, x: T): (i: nat)
    requires x in xs
    ensures i < |xs| && xs[i] == x
    ensures forall j :: 0 <= j < i ==> xs[j] != x
  {
    if xs[0] == x then 0 else 1 + FirstIndex(xs[1..], x)
  }

  /** `[...new Set(xs)]`: a Set iterates in insertion order, and inserting an
      element already present changes nothing. */
  function Dedupe<T(==)>(xs: seq<T>): (r: seq<T>)
    ensures NoDuplicates(r)
    ensures forall i :: 0 <= i < |r| ==> r[i] in xs
    ensures forall i :: 0 <= i < |xs| ==> xs[i] in r
  {
    if |xs| == 0 then []
    else
      var d := Dedupe(xs[..|xs| - 1]);
      var x := xs[|xs| - 1];
      assert forall y :: y in xs[..|xs| - 1] ==> y in xs;
      assert forall y :: y in xs ==> y in xs[..|xs| - 1] || y == x;
      if x in d then d else d + [x]
  }

  /** The first index is the only position that holds x and has no x before it. */
  lemma FirstIndexUnique<T>(xs: seq<T>, x: T, k: nat)
    requires k < |xs| && xs[k] == x
    requires forall j :: 0 <= j < k ==> xs[j] != x
    ensures FirstIndex(xs, x) == k
  {
    var i := FirstIndex(xs, x);
    assert !(i < k);
    assert !(k < i);
  }

  lemma FirstIndexOfPrefix<T>(xs: seq<T>, x: T)
    requires |xs| > 0 && x in xs[..|xs| - 1]
    ensures FirstIndex(xs, x) == FirstIndex(xs[..|xs| - 1], x)
  {
    var front := xs[..|xs| - 1];
    var i := FirstIndex(front, x);
    assert forall j :: 0 <= j <= i ==> front[j] == xs[j];
    FirstIndexUnique(xs, x, i);
  }

  /** The deduplicated values appear in the order of their first occurrence. */
  lemma {:induction false} DedupeFirstSeenOrder<T>(xs: seq<T>)
    ensures forall i, j :: 0 <= i < j < |Dedupe(xs)| ==>
      FirstIndex(xs, Dedupe(xs)[i]) < FirstIndex(xs, Dedupe(xs)[j])
  {
    if |xs| > 0 {
      var front := xs[..|xs| - 1];
      var x := xs[|xs| - 1];
      var d := Dedupe(front);
      DedupeFirstSeenOrder(front);
      forall y | y in d
        ensures FirstIndex(xs, y) == FirstIndex(front, y) < |xs| - 1
      {
        FirstIndexOfPrefix(xs, y);
      }
      if x !in d {
        assert x !in front;
        assert FirstIndex(xs, x) == |xs| - 1;
        var r := d + [x];
        forall i, j | 0 <= i < j < |r|
          ensures FirstIndex(xs, r[i]) < FirstIndex(xs, r[j])
        {
          assert r[i] == d[i] && r[i] in d;
          if j < |d| {
            assert r[j] == d[j] && r[j] in d;
          }
        }
      } else {
        forall i, j | 0 <= i < j < |d|
          ensures FirstIndex(xs, d[i]) < FirstIndex(xs, d[j])
        {
          assert d[i] in d && d[j] in d;
        }
      }
    }
  }
}
