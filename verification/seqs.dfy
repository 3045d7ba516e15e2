/** Sequence helpers shared by the analytics modules: sums, counts, truncation and a stable sort by key. */
module Seqs {
  import Numerics

  /** Left-to-right sum, as `values.reduce((a, b) => a + b, 0)`. */
  function Sum(s: seq<real>): real
  {
    if |s| == 0 then 0.0 else Sum(s[..|s| - 1]) + s[|s| - 1]
  }

  function IntSum(s: seq<int>): int
  {
    if |s| == 0 then 0 else IntSum(s[..|s| - 1]) + s[|s| - 1]
  }

  lemma {:induction false} SumAppend(a: seq<real>, b: seq<real>)
    ensures Sum(a + b) == Sum(a) + Sum(b)
    decreases |b|
  {
    if |b| == 0 {
      assert a + b == a;
    } else {
      assert (a + b)[..|a + b| - 1] == a + b[..|b| - 1];
      SumAppend(a, b[..|b| - 1]);
    }
  }

  lemma {:induction false} IntSumAppend(a: seq<int>, b: seq<int>)
    ensures IntSum(a + b) == IntSum(a) + IntSum(b)
    decreases |b|
  {
    if |b| == 0 {
      assert a + b == a;
    } else {
      assert (a + b)[..|a + b| - 1] == a + b[..|b| - 1];
      IntSumAppend(a, b[..|b| - 1]);
    }
  }

  /** A sum of non-negative terms is non-negative. */
  lemma {:induction false} SumNonNegative(s: seq<real>)
    requires forall i :: 0 <= i < |s| ==> s[i] >= 0.0
    ensures Sum(s) >= 0.0
    decreases |s|
  {
    if |s| > 0 {
      SumNonNegative(s[..|s| - 1]);
    }
  }

  /** A sum of terms that are all zero is zero. */
  lemma {:induction false} SumZero(s: seq<real>)
    requires forall i :: 0 <= i < |s| ==> s[i] == 0.0
    ensures Sum(s) == 0.0
    decreases |s|
  {
    if |s| > 0 {
      SumZero(s[..|s| - 1]);
    }
  }

  /** A sum of non-negative terms is zero only when every term is zero. */
  lemma {:induction false} SumZeroOnlyIfAllZero(s: seq<real>, k: int)
    requires forall i :: 0 <= i < |s| ==> s[i] >= 0.0
    requires 0 <= k < |s|
    ensures Sum(s) >= s[k]
    decreases |s|
  {
    SumNonNegative(s[..|s| - 1]);
    if k < |s| - 1 {
      SumZeroOnlyIfAllZero(s[..|s| - 1], k);
    }
  }

  /** A sum of n terms that are each at least c is at least n * c. */
  lemma {:induction false} SumAtLeast(s: seq<real>, c: real)
    requires forall i :: 0 <= i < |s| ==> s[i] >= c
    ensures Sum(s) >= |s| as real * c
    decreases |s|
  {
    if |s| > 0 {
      SumAtLeast(s[..|s| - 1], c);
    }
  }

  /** A sum of values that are all at most c is at most |s| times c. */
  lemma {:induction false} SumAtMost(s: seq<real>, c: real)
    requires forall i :: 0 <= i < |s| ==> s[i] <= c
    ensures Sum(s) <= |s| as real * c
    decreases |s|
  {
    if |s| > 0 {
      SumAtMost(s[..|s| - 1], c);
    }
  }

  /** Number of elements of s that satisfy p. */
  function Count<T>(s: seq<T>, p: T -> bool): (c: nat)
    ensures c <= |s|
  {
    if |s| == 0 then 0 else Count(s[..|s| - 1], p) + (if p(s[|s| - 1]) then 1 else 0)
  }

  lemma {:induction false} CountAppend<T>(a: seq<T>, b: seq<T>, p: T -> bool)
    ensures Count(a + b, p) == Count(a, p) + Count(b, p)
    decreases |b|
  {
    if |b| == 0 {
      assert a + b == a;
    } else {
      assert (a + b)[..|a + b| - 1] == a + b[..|b| - 1];
      CountAppend(a, b[..|b| - 1], p);
    }
  }

  /** Sequences that agree on p position by position have the same count. */
  lemma {:induction false} CountPointwise<A, B>(s: seq<A>, t: seq<B>, p: A -> bool, q: B -> bool)
    requires |s| == |t| && forall i :: 0 <= i < |s| ==> p(s[i]) == q(t[i])
    ensures Count(s, p) == Count(t, q)
    decreases |s|
  {
    if |s| > 0 {
      CountPointwise(s[..|s| - 1], t[..|t| - 1], p, q);
    }
  }

  /** A prefix and the whole agree on the prefix's positions. */
  lemma PrefixIndex<T>(a: seq<T>, b: seq<T>, k: nat)
    requires a <= b && k < |a|
    ensures k < |b| && b[k] == a[k]
  {
  }

  /** Every element is counted exactly when every element satisfies p. */
  lemma {:induction false} CountAll<T>(s: seq<T>, p: T -> bool)
    ensures Count(s, p) == |s| <==> forall i :: 0 <= i < |s| ==> p(s[i])
    decreases |s|
  {
    if |s| > 0 {
      var init := s[..|s| - 1];
      CountAll(init, p);
      assert forall i :: 0 <= i < |init| ==> init[i] == s[i];
    }
  }

  /** No element satisfies p, so none is counted. */
  lemma {:induction false} NoneCounted<T>(s: seq<T>, p: T -> bool)
    requires forall x :: x in s ==> !p(x)
    ensures Count(s, p) == 0
    decreases |s|
  {
    if |s| > 0 {
      assert s[|s| - 1] in s;
      NoneCounted(s[..|s| - 1], p);
    }
  }

  /** Counting a weaker predicate never gives less. */
  lemma {:induction false} CountMonotone<T>(s: seq<T>, p: T -> bool, q: T -> bool)
    requires forall x :: p(x) ==> q(x)
    ensures Count(s, p) <= Count(s, q)
    decreases |s|
  {
    if |s| > 0 {
      CountMonotone(s[..|s| - 1], p, q);
    }
  }

  /** The elements of s that satisfy p, in their original order (`Array.prototype.filter`, `Stream.filter`). */
  function Filter<T>(s: seq<T>, p: T -> bool): (r: seq<T>)
    ensures |r| == Count(s, p)
    ensures forall x :: x in r ==> x in s && p(x)
  {
    if |s| == 0 then [] else Filter(s[..|s| - 1], p) + (if p(s[|s| - 1]) then [s[|s| - 1]] else [])
  }

  lemma {:induction false} FilterAppend<T>(a: seq<T>, b: seq<T>, p: T -> bool)
    ensures Filter(a + b, p) == Filter(a, p) + Filter(b, p)
    decreases |b|
  {
    if |b| == 0 {
      assert a + b == a;
    } else {
      assert (a + b)[..|a + b| - 1] == a + b[..|b| - 1];
      FilterAppend(a, b[..|b| - 1], p);
    }
  }

  /** An element that satisfies p survives the filter. */
  lemma {:induction false} FilterKeeps<T>(s: seq<T>, p: T -> bool, x: T)
    requires x in s && p(x)
    ensures x in Filter(s, p)
    decreases |s|
  {
    if s[|s| - 1] != x {
      assert x in s[..|s| - 1];
      FilterKeeps(s[..|s| - 1], p, x);
    }
  }

  /** A filter and its complement split a sequence into two parts with the same elements. */
  lemma {:induction false} FilterSplits<T>(s: seq<T>, p: T -> bool, q: T -> bool)
    requires forall x :: q(x) == !p(x)
    ensures multiset(Filter(s, p)) + multiset(Filter(s, q)) == multiset(s)
    decreases |s|
  {
    if |s| > 0 {
      FilterSplits(s[..|s| - 1], p, q);
      FilterStep(s, p);
      FilterStep(s, q);
      MultisetOfLast(s);
    }
  }

  /** The last element joins the filter's elements exactly when it passes. */
  lemma FilterStep<T>(s: seq<T>, p: T -> bool)
    requires |s| > 0
    ensures multiset(Filter(s, p)) ==
      multiset(Filter(s[..|s| - 1], p)) + (if p(s[|s| - 1]) then multiset{s[|s| - 1]} else multiset{})
  {
  }

  lemma MultisetOfLast<T>(s: seq<T>)
    requires |s| > 0
    ensures multiset(s) == multiset(s[..|s| - 1]) + multiset{s[|s| - 1]}
  {
    assert s[..|s| - 1] + [s[|s| - 1]] == s;
  }

  /** a can be obtained from b by deleting elements: a's elements occur in b in the same order. */
  ghost predicate Subsequence<T>(a: seq<T>, b: seq<T>)
    decreases |b|
  {
    if |a| == 0 then true
    else if |b| == 0 then false
    else (a[|a| - 1] == b[|b| - 1] && Subsequence(a[..|a| - 1], b[..|b| - 1])) || Subsequence(a, b[..|b| - 1])
  }

  /** Filtering deletes elements and keeps the order of the rest. */
  lemma {:induction false} FilterIsSubsequence<T>(s: seq<T>, p: T -> bool)
    ensures Subsequence(Filter(s, p), s)
    decreases |s|
  {
    if |s| > 0 {
      var init, x := s[..|s| - 1], s[|s| - 1];
      FilterIsSubsequence(init, p);
      var f := Filter(s, p);
      if p(x) {
        assert f[..|f| - 1] == Filter(init, p);
      } else {
        assert f == Filter(init, p);
      }
    }
  }

  /** An element that passes lands in the filter at the number of passing elements before it. */
  lemma FilterPosition<T>(s: seq<T>, p: T -> bool, j: int)
    requires 0 <= j < |s| && p(s[j])
    ensures Count(s[..j], p) < |Filter(s, p)| && Filter(s, p)[Count(s[..j], p)] == s[j]
  {
    var pre, post := s[..j + 1], s[j + 1..];
    assert pre[..|pre| - 1] == s[..j] && pre[|pre| - 1] == s[j];
    assert Filter(pre, p) == Filter(s[..j], p) + [s[j]];
    assert pre + post == s;
    FilterAppend(pre, post, p);
    assert Filter(s, p) == Filter(s[..j], p) + [s[j]] + Filter(post, p);
  }

  /**
   * The first n elements that pass (`filter(p).limit(n)`) keep their order
   * in s, and include every passing element with fewer than n passing ones
   * before it.
   */
  lemma FirstPassing<T>(s: seq<T>, p: T -> bool, n: nat)
    ensures Subsequence(Take(Filter(s, p), n), s)
    ensures forall j :: 0 <= j < |s| && p(s[j]) && Count(s[..j], p) < n ==> s[j] in Take(Filter(s, p), n)
  {
    var f := Filter(s, p);
    var r := Take(f, n);
    FilterIsSubsequence(s, p);
    SubsequencePrefix(f, s, |r|);
    assert f[..|r|] == r;
    forall j | 0 <= j < |s| && p(s[j]) && Count(s[..j], p) < n
      ensures s[j] in r
    {
      FilterPosition(s, p, j);
      assert r[Count(s[..j], p)] == s[j];
    }
  }

  /** A prefix of a subsequence of b is a subsequence of b. */
  lemma {:induction false} SubsequencePrefix<T>(a: seq<T>, b: seq<T>, n: nat)
    requires n <= |a| && Subsequence(a, b)
    ensures Subsequence(a[..n], b)
    decreases |b|
  {
    if n == |a| {
      assert a[..n] == a;
    } else if n > 0 {
      var init := b[..|b| - 1];
      if a[|a| - 1] == b[|b| - 1] && Subsequence(a[..|a| - 1], init) {
        SubsequencePrefix(a[..|a| - 1], init, n);
        assert a[..|a| - 1][..n] == a[..n];
      } else {
        SubsequencePrefix(a, init, n);
      }
    }
  }

  /** A relation that holds from every element to each later one still holds after filtering. */
  lemma {:induction false} FilterKeepsOrder<T>(s: seq<T>, p: T -> bool, before: (T, T) -> bool)
    requires forall i, j :: 0 <= i < j < |s| ==> before(s[i], s[j])
    ensures forall i, j :: 0 <= i < j < |Filter(s, p)| ==> before(Filter(s, p)[i], Filter(s, p)[j])
    decreases |s|
  {
    if |s| > 0 {
      var init, x := s[..|s| - 1], s[|s| - 1];
      FilterKeepsOrder(init, p, before);
      var f, g := Filter(s, p), Filter(init, p);
      if p(x) {
        forall i, j | 0 <= i < j < |f|
          ensures before(f[i], f[j])
        {
          assert f[i] == g[i];
          if j == |g| {
            assert g[i] in init;
            var k :| 0 <= k < |init| && init[k] == g[i];
            assert s[k] == g[i];
          } else {
            assert f[j] == g[j];
          }
        }
      }
    }
  }

  /** s back to front. */
  function Reverse<T>(s: seq<T>): (r: seq<T>)
    ensures |r| == |s| && forall i :: 0 <= i < |s| ==> r[i] == s[|s| - 1 - i]
  {
    seq(|s|, i requires 0 <= i < |s| => s[|s| - 1 - i])
  }

  /** Reversing keeps the members. */
  lemma ReverseMembers<T>(s: seq<T>)
    ensures forall x :: x in Reverse(s) <==> x in s
  {
    var r := Reverse(s);
    assert forall i :: 0 <= i < |s| ==> s[i] == r[|s| - 1 - i];
  }

  /** In a sequence without repetitions, the first occurrence of an element is its only position. */
  lemma IndexOfDistinct<T>(s: seq<T>, i: int)
    requires NoDuplicates(s) && 0 <= i < |s|
    ensures IndexOf(s, s[i]) == i
  {
  }

  /** A filter that every element passes keeps the whole sequence. */
  lemma {:induction false} FilterAll<T>(s: seq<T>, p: T -> bool)
    requires forall i :: 0 <= i < |s| ==> p(s[i])
    ensures Filter(s, p) == s
    decreases |s|
  {
    if |s| > 0 {
      var init, x := s[..|s| - 1], s[|s| - 1];
      assert forall i :: 0 <= i < |init| ==> p(init[i]);
      FilterAll(init, p);
      LastSplit(s);
    }
  }

  /** A non-empty sequence is its prefix followed by its last element. */
  lemma LastSplit<T>(s: seq<T>)
    requires |s| > 0
    ensures s == s[..|s| - 1] + [s[|s| - 1]]
  {
  }

  /** Filtering never introduces a repeated element. */
  lemma {:induction false} FilterNoDuplicates<T>(s: seq<T>, p: T -> bool)
    ensures NoDuplicates(s) ==> NoDuplicates(Filter(s, p))
    decreases |s|
  {
    if |s| > 0 && NoDuplicates(s) {
      var init := s[..|s| - 1];
      assert NoDuplicates(init);
      FilterNoDuplicates(init, p);
      assert s[|s| - 1] !in init;
    }
  }

  /** Filtering by p and then by q is filtering by their conjunction. */
  lemma {:induction false} FilterTwice<T>(s: seq<T>, p: T -> bool, q: T -> bool, pq: T -> bool)
    requires forall x :: pq(x) == (p(x) && q(x))
    ensures Filter(Filter(s, p), q) == Filter(s, pq)
    decreases |s|
  {
    if |s| > 0 {
      var init := s[..|s| - 1];
      var x := s[|s| - 1];
      FilterTwice(init, p, q, pq);
      var fp := Filter(init, p);
      if p(x) {
        FilterAppend(fp, [x], q);
        assert Filter([x], q) == (if q(x) then [x] else []) by {
          assert [x][..0] == [];
        }
      } else {
        assert Filter(s, p) == fp;
      }
    }
  }

  /** The first n elements (Java `Stream.limit`, JavaScript `slice(0, n)`). */
  function Take<T>(s: seq<T>, n: nat): (r: seq<T>)
    ensures |r| == if n < |s| then n else |s|
    ensures forall i :: 0 <= i < |r| ==> r[i] == s[i]
    ensures multiset(r) <= multiset(s)
  {
    if n < |s| then
      assert s == s[..n] + s[n..];
      s[..n]
    else s
  }

  /** A rearrangement of a sequence without duplicates has none either. */
  lemma PermutationNoDuplicates<T>(a: seq<T>, b: seq<T>)
    requires multiset(a) == multiset(b) && NoDuplicates(a)
    ensures NoDuplicates(b)
  {
    forall i, j | 0 <= i < j < |b|
      ensures b[i] != b[j]
    {
      if b[i] == b[j] {
        TwoPositions(b, i, j);
        NoDuplicatesOnce(a, b[i]);
      }
    }
  }

  /** True when the keys of s never decrease. */
  ghost predicate SortedBy<T>(s: seq<T>, key: T -> real)
  {
    forall i, j :: 0 <= i < j < |s| ==> key(s[i]) <= key(s[j])
  }

  /** Inserts x before the first element whose key exceeds key(x), keeping the sort stable. */
  function InsertByKey<T>(s: seq<T>, x: T, key: T -> real): (r: seq<T>)
    requires SortedBy(s, key)
    ensures |r| == |s| + 1
    ensures multiset(r) == multiset(s) + multiset{x}
    ensures r[0] == x || (|s| > 0 && r[0] == s[0])
    ensures SortedBy(r, key)
    decreases |s|
  {
    if |s| == 0 then [x]
    else if key(x) < key(s[0]) then [x] + s
    else
      var t := InsertByKey(s[1..], x, key);
      assert s == [s[0]] + s[1..];
      assert key(s[0]) <= key(t[0]);
      ConsSorted(s[0], t, key);
      [s[0]] + t
  }

  /** An element whose key is at most the first key of a sorted sequence can go in front of it. */
  lemma ConsSorted<T>(x: T, t: seq<T>, key: T -> real)
    requires SortedBy(t, key) && (|t| > 0 ==> key(x) <= key(t[0]))
    ensures SortedBy([x] + t, key)
  {
    var r := [x] + t;
    forall i, j | 0 <= i < j < |r|
      ensures key(r[i]) <= key(r[j])
    {
      if i == 0 {
        assert key(t[0]) <= key(t[j - 1]) || j == 1;
      }
    }
  }

  /** Stable ascending sort by key (Java `sorted(Comparator.comparingDouble(key))`). */
  function SortByKey<T>(s: seq<T>, key: T -> real): (r: seq<T>)
    ensures |r| == |s|
    ensures multiset(r) == multiset(s)
    ensures SortedBy(r, key)
    decreases |s|
  {
    if |s| == 0 then []
    else
      assert s[..|s| - 1] + [s[|s| - 1]] == s;
      InsertByKey(SortByKey(s[..|s| - 1], key), s[|s| - 1], key)
  }

  /** The elements of s satisfying p, stably sorted by key (`filter(p).sorted(...)`). */
  function FilterSorted<T>(s: seq<T>, p: T -> bool, key: T -> real): (r: seq<T>)
    ensures |r| == Count(s, p)
    ensures forall x :: x in r ==> x in s && p(x)
    ensures forall i :: 0 <= i < |s| && p(s[i]) ==> s[i] in r
    ensures SortedBy(r, key)
  {
    var kept := Filter(s, p);
    var r := SortByKey(kept, key);
    forall i | 0 <= i < |s| && p(s[i])
      ensures s[i] in r
    {
      FilterKeeps(s, p, s[i]);
      assert s[i] in multiset(kept);
    }
    forall x | x in r
      ensures x in kept
    {
      assert x in multiset(r);
    }
    r
  }

  /**
   * The n elements with the smallest keys, ties in their original order
   * (`sorted(comparing(key)).limit(n)`).
   */
  function Lowest<T>(s: seq<T>, key: T -> real, n: nat): (r: seq<T>)
    ensures |r| == if n < |s| then n else |s|
    ensures forall x :: x in r ==> x in s
    ensures forall i, j :: 0 <= i < j < |r| ==> key(r[i]) <= key(r[j])
    ensures forall x, i :: x in s && x !in r && 0 <= i < |r| ==> key(r[i]) <= key(x)
    ensures n >= |s| ==> multiset(r) == multiset(s)
    ensures multiset(r) <= multiset(s)
    ensures NoDuplicates(s) ==> NoDuplicates(r)
  {
    var sorted := SortByKey(s, key);
    TakeOfRearrangement(s, sorted, n);
    TakeSmallest(s, sorted, key, n);
    Take(sorted, n)
  }

  /** A prefix of a rearrangement of s holds only elements of s, and no repeats when s has none. */
  lemma TakeOfRearrangement<T>(s: seq<T>, sorted: seq<T>, n: nat)
    requires multiset(sorted) == multiset(s)
    ensures forall x :: x in Take(sorted, n) ==> x in s
    ensures n >= |s| ==> Take(sorted, n) == sorted
    ensures NoDuplicates(s) ==> NoDuplicates(Take(sorted, n))
  {
    var r := Take(sorted, n);
    assert |sorted| == |multiset(sorted)| == |multiset(s)| == |s|;
    forall x | x in r
      ensures x in s
    {
      assert x in multiset(sorted);
    }
    if NoDuplicates(s) {
      PermutationNoDuplicates(s, sorted);
    }
  }

  /** A prefix of a sorted rearrangement of s has keys no larger than any element of s it leaves out. */
  lemma TakeSmallest<T>(s: seq<T>, sorted: seq<T>, key: T -> real, n: nat)
    requires multiset(sorted) == multiset(s) && SortedBy(sorted, key)
    ensures forall x, i :: x in s && x !in Take(sorted, n) && 0 <= i < |Take(sorted, n)| ==>
      key(Take(sorted, n)[i]) <= key(x)
  {
    var r := Take(sorted, n);
    forall x, i | x in s && x !in r && 0 <= i < |r|
      ensures key(r[i]) <= key(x)
    {
      assert x in multiset(sorted);
      var k :| 0 <= k < |sorted| && sorted[k] == x;
      assert k >= |r|;
    }
  }

  /**
   * The n elements with the largest keys, ties in their original order
   * (`sorted(comparing(key).reversed()).limit(n)`).
   */
  function Highest<T>(s: seq<T>, key: T -> real, n: nat): (r: seq<T>)
    ensures |r| == if n < |s| then n else |s|
    ensures forall x :: x in r ==> x in s
    ensures forall i, j :: 0 <= i < j < |r| ==> key(r[i]) >= key(r[j])
    ensures forall x, i :: x in s && x !in r && 0 <= i < |r| ==> key(r[i]) >= key(x)
    ensures n >= |s| ==> multiset(r) == multiset(s)
    ensures multiset(r) <= multiset(s)
    ensures NoDuplicates(s) ==> NoDuplicates(r)
  {
    var neg := (x: T) => -key(x);
    NegatedOrder(s, key, neg, n);
    Lowest(s, neg, n)
  }

  /** The lowest elements under the negated key are the highest under the key, in descending order. */
  lemma NegatedOrder<T>(s: seq<T>, key: T -> real, neg: T -> real, n: nat)
    requires forall x :: neg(x) == -key(x)
    ensures forall i, j :: 0 <= i < j < |Lowest(s, neg, n)| ==> key(Lowest(s, neg, n)[i]) >= key(Lowest(s, neg, n)[j])
    ensures forall x, i :: x in s && x !in Lowest(s, neg, n) && 0 <= i < |Lowest(s, neg, n)| ==>
      key(Lowest(s, neg, n)[i]) >= key(x)
  {
    var r := Lowest(s, neg, n);
    forall i, j | 0 <= i < j < |r|
      ensures key(r[i]) >= key(r[j])
    {
      assert neg(r[i]) <= neg(r[j]);
    }
    forall x, i | x in s && x !in r && 0 <= i < |r|
      ensures key(r[i]) >= key(x)
    {
      assert neg(r[i]) <= neg(x);
    }
  }

  /** When one element's key is strictly above every other's, it comes first among the highest n (n at least 1). */
  lemma HighestKeepsMaximum<T>(s: seq<T>, key: T -> real, n: nat, m: T)
    requires n >= 1 && m in s
    requires forall x :: x in s && x != m ==> key(x) < key(m)
    ensures |Highest(s, key, n)| > 0 && Highest(s, key, n)[0] == m
  {
    var r := Highest(s, key, n);
    assert r[0] in s;
  }

  /** Each element of a sequence without duplicates occurs once. */
  lemma {:induction false} NoDuplicatesOnce<T>(s: seq<T>, x: T)
    requires NoDuplicates(s)
    ensures multiset(s)[x] <= 1
    decreases |s|
  {
    if |s| > 0 {
      var init := s[..|s| - 1];
      assert s == init + [s[|s| - 1]];
      NoDuplicatesOnce(init, x);
      if x == s[|s| - 1] {
        assert x !in init;
      }
    }
  }

  /** An element found at two positions occurs at least twice. */
  lemma TwoPositions<T>(s: seq<T>, i: nat, j: nat)
    requires i < j < |s| && s[i] == s[j]
    ensures multiset(s)[s[i]] >= 2
  {
    assert s == s[..j] + [s[j]] + s[j + 1..];
    assert s[..j][i] == s[i];
  }

  /**
   * When one element's key is strictly above every other's and n is
   * shorter than a sequence without duplicates, it is not among the
   * lowest n.
   */
  lemma LowestDropsMaximum<T>(s: seq<T>, key: T -> real, n: nat, m: T)
    requires n < |s| && NoDuplicates(s) && m in s
    requires forall x :: x in s && x != m ==> key(x) < key(m)
    ensures m !in Lowest(s, key, n)
  {
    var sorted := SortByKey(s, key);
    var last := |sorted| - 1;
    assert sorted[last] in multiset(s);
    assert m in multiset(sorted);
    assert sorted[last] == m;
    if m in Lowest(s, key, n) {
      var r := Lowest(s, key, n);
      var i :| 0 <= i < |r| && r[i] == m;
      assert r == Take(sorted, n);
      assert sorted[i] == m;
      TwoPositions(sorted, i, last);
      NoDuplicatesOnce(s, m);
      assert false;
    }
  }

  /** True when `le` holds between every element and every later one. */
  ghost predicate OrderedWith<T>(s: seq<T>, le: (T, T) -> bool)
  {
    forall i, j :: 0 <= i < j < |s| ==> le(s[i], s[j])
  }

  /** `le` is total and transitive on the elements of s. */
  ghost predicate PreorderOn<T>(s: seq<T>, le: (T, T) -> bool)
  {
    (forall a, b :: a in s && b in s ==> le(a, b) || le(b, a))
    && (forall a, b, c :: a in s && b in s && c in s && le(a, b) && le(b, c) ==> le(a, c))
  }

  /** Inserts x before the first element that may not precede it, so x goes after the elements equal to it. */
  function InsertWith<T>(s: seq<T>, x: T, le: (T, T) -> bool): (r: seq<T>)
    ensures |r| == |s| + 1
    ensures multiset(r) == multiset(s) + multiset{x}
    decreases |s|
  {
    if |s| == 0 then [x]
    else if !le(s[0], x) then [x] + s
    else
      assert s == [s[0]] + s[1..];
      [s[0]] + InsertWith(s[1..], x, le)
  }

  /** Inserting into an ordered sequence keeps it ordered when `le` is a total preorder on the elements. */
  lemma {:induction false} InsertWithOrdered<T>(s: seq<T>, x: T, le: (T, T) -> bool)
    requires PreorderOn(s + [x], le) && OrderedWith(s, le)
    ensures OrderedWith(InsertWith(s, x, le), le)
    decreases |s|
  {
    if |s| > 0 {
      assert x in s + [x] && s[0] in s + [x];
      if !le(s[0], x) {
        assert le(x, s[0]);
        assert forall j :: 0 <= j < |s| ==> s[j] in s + [x];
      } else {
        assert s == [s[0]] + s[1..];
        assert forall y :: y in s[1..] + [x] ==> y in s + [x];
        InsertWithOrdered(s[1..], x, le);
        var t := InsertWith(s[1..], x, le);
        forall j | 0 <= j < |t|
          ensures le(s[0], t[j])
        {
          assert t[j] in multiset(s[1..]) + multiset{x};
          if t[j] != x {
            assert t[j] in s[1..];
            var k :| 0 <= k < |s[1..]| && s[1..][k] == t[j];
            assert s[k + 1] == t[j];
          }
        }
      }
    }
  }

  /** An element that every element already there may precede goes at the end: equal elements keep their order. */
  lemma {:induction false} InsertWithAfterEqual<T>(s: seq<T>, x: T, le: (T, T) -> bool)
    requires forall j :: 0 <= j < |s| ==> le(s[j], x)
    ensures InsertWith(s, x, le) == s + [x]
    decreases |s|
  {
    if |s| > 0 {
      InsertWithAfterEqual(s[1..], x, le);
      assert [s[0]] + (s[1..] + [x]) == s + [x];
    }
  }

  /** Insertion sort with the order relation `le` (a JavaScript `sort` with a comparator). */
  function SortWith<T>(s: seq<T>, le: (T, T) -> bool): (r: seq<T>)
    ensures |r| == |s|
    ensures multiset(r) == multiset(s)
    decreases |s|
  {
    if |s| == 0 then []
    else
      assert s[..|s| - 1] + [s[|s| - 1]] == s;
      InsertWith(SortWith(s[..|s| - 1], le), s[|s| - 1], le)
  }

  /** The result of SortWith is ordered whenever `le` is a total preorder on the input. */
  lemma {:induction false} SortWithOrdered<T>(s: seq<T>, le: (T, T) -> bool)
    requires PreorderOn(s, le)
    ensures OrderedWith(SortWith(s, le), le)
    decreases |s|
  {
    if |s| > 0 {
      var init := s[..|s| - 1];
      var x := s[|s| - 1];
      assert init + [x] == s;
      assert forall y :: y in init ==> y in s;
      SortWithOrdered(init, le);
      var sorted := SortWith(init, le);
      forall y | y in sorted + [x]
        ensures y in s
      {
        if y != x {
          assert y in multiset(sorted);
        }
      }
      InsertWithOrdered(sorted, x, le);
    }
  }

  /** Largest element of a non-empty sequence (`Math.max(...s)`, `Collections.max`). */
  function Max(s: seq<real>): (m: real)
    requires |s| > 0
    ensures m in s
    ensures forall i :: 0 <= i < |s| ==> s[i] <= m
  {
    if |s| == 1 then s[0]
    else
      var m := Max(s[..|s| - 1]);
      assert forall i :: 0 <= i < |s| - 1 ==> s[..|s| - 1][i] == s[i];
      if s[|s| - 1] > m then s[|s| - 1] else m
  }

  /** Smallest element of a non-empty sequence (`Math.min(...s)`). */
  function Min(s: seq<real>): (m: real)
    requires |s| > 0
    ensures m in s
    ensures forall i :: 0 <= i < |s| ==> m <= s[i]
  {
    if |s| == 1 then s[0]
    else
      var m := Min(s[..|s| - 1]);
      assert forall i :: 0 <= i < |s| - 1 ==> s[..|s| - 1][i] == s[i];
      if s[|s| - 1] < m then s[|s| - 1] else m
  }

  /** Position of the first occurrence of x, or -1 (`indexOf`). */
  function IndexOf<T(==)>(s: seq<T>, x: T): (i: int)
    ensures -1 <= i < |s|
    ensures i == -1 <==> x !in s
    ensures 0 <= i ==> s[i] == x && forall j :: 0 <= j < i ==> s[j] != x
  {
    if |s| == 0 then -1
    else if s[0] == x then 0
    else
      var i := IndexOf(s[1..], x);
      if i == -1 then -1 else i + 1
  }

  /** Position of the first element satisfying p, or -1 (`findIndex`). */
  function FindIndex<T>(s: seq<T>, p: T -> bool): (i: int)
    ensures -1 <= i < |s|
    ensures i == -1 <==> forall j :: 0 <= j < |s| ==> !p(s[j])
    ensures 0 <= i ==> p(s[i]) && forall j :: 0 <= j < i ==> !p(s[j])
  {
    if |s| == 0 then -1
    else if p(s[0]) then 0
    else
      var i := FindIndex(s[1..], p);
      if i == -1 then -1 else i + 1
  }

  /** Sequences on which p holds at the same positions have the same first match. */
  lemma FindIndexAgrees<T>(s: seq<T>, t: seq<T>, p: T -> bool)
    requires |s| == |t| && forall j :: 0 <= j < |s| ==> p(s[j]) == p(t[j])
    ensures FindIndex(s, p) == FindIndex(t, p)
  {
  }

  /** Appending an element does not move an existing first match. */
  lemma {:induction false} FindIndexAppend<T>(s: seq<T>, x: T, p: T -> bool)
    ensures FindIndex(s, p) >= 0 ==> FindIndex(s + [x], p) == FindIndex(s, p)
    ensures FindIndex(s, p) == -1 ==> FindIndex(s + [x], p) == (if p(x) then |s| else -1)
    decreases |s|
  {
    if |s| > 0 {
      assert (s + [x])[0] == s[0];
      assert (s + [x])[1..] == s[1..] + [x];
      FindIndexAppend(s[1..], x, p);
    }
  }

  /** The sequence with element i removed (`splice(i, 1)`). */
  function RemoveAt<T>(s: seq<T>, i: nat): (r: seq<T>)
    requires i < |s|
    ensures |r| == |s| - 1
    ensures multiset(r) + multiset{s[i]} == multiset(s)
    ensures forall j :: 0 <= j < |r| ==> r[j] == if j < i then s[j] else s[j + 1]
  {
    assert s == s[..i] + [s[i]] + s[i + 1..];
    s[..i] + s[i + 1..]
  }

  /** The sequence is its part before i, the element at i and its part after i; removing i joins the two parts. */
  lemma RemoveAtSplits<T>(s: seq<T>, i: nat)
    requires i < |s|
    ensures s == s[..i] + [s[i]] + s[i + 1..]
    ensures RemoveAt(s, i) == s[..i] + s[i + 1..]
  {
  }

  /** The sequence with x inserted at position i (`splice(i, 0, x)`); i beyond the end appends. */
  function InsertAt<T>(s: seq<T>, i: nat, x: T): (r: seq<T>)
    ensures |r| == |s| + 1
    ensures multiset(r) == multiset(s) + multiset{x}
  {
    if i <= |s| then
      assert s == s[..i] + s[i..];
      s[..i] + [x] + s[i..]
    else s + [x]
  }

  /** Inserting x and then removing it again, from where it landed, gives the sequence back. */
  lemma InsertThenRemove<T>(s: seq<T>, i: nat, x: T)
    ensures (if i <= |s| then i else |s|) < |InsertAt(s, i, x)|
    ensures InsertAt(s, i, x)[if i <= |s| then i else |s|] == x
    ensures RemoveAt(InsertAt(s, i, x), if i <= |s| then i else |s|) == s
  {
    var j := if i <= |s| then i else |s|;
    var r := InsertAt(s, i, x);
    assert r == s[..j] + [x] + s[j..];
    var t := RemoveAt(r, j);
    forall k | 0 <= k < |t|
      ensures t[k] == s[k]
    {
      if k < j {
        assert t[k] == r[k];
      } else {
        assert t[k] == r[k + 1];
      }
    }
    assert t == s;
  }

  /** Putting a removed element back where it was gives the sequence back. */
  lemma RemoveThenInsert<T>(s: seq<T>, i: nat)
    requires i < |s|
    ensures InsertAt(RemoveAt(s, i), i, s[i]) == s
  {
    var r := RemoveAt(s, i);
    assert r[..i] == s[..i] && r[i..] == s[i + 1..];
    assert s == s[..i] + [s[i]] + s[i + 1..];
  }

  /** Mean of a non-empty sequence. */
  function Mean(s: seq<real>): real
    requires |s| > 0
  {
    Sum(s) / (|s| as real)
  }

  /** The indices 0 .. n-1 in order. */
  function Range(n: nat): (r: seq<nat>)
    ensures |r| == n
    ensures forall i :: 0 <= i < n ==> r[i] == i
  {
    seq(n, i => i)
  }

  /** Number of occurrences of k in s. */
  function CountOf<K(==)>(s: seq<K>, k: K): (c: nat)
    ensures c <= |s|
  {
    if |s| == 0 then 0 else CountOf(s[..|s| - 1], k) + (if s[|s| - 1] == k then 1 else 0)
  }

  /** `groupingBy(identity, counting())`: each element that occurs, with how often it occurs. */
  function Occurrences<K(==,!new)>(s: seq<K>): (r: map<K, nat>)
    ensures forall k :: k in r <==> k in s
    ensures forall k :: k in r ==> r[k] > 0 && r[k] == CountOf(s, k)
  {
    CountOfZeroAll(s);
    map k | k in s :: CountOf(s, k)
  }

  /** CountOfZero for every k at once. */
  lemma CountOfZeroAll<K>(s: seq<K>)
    ensures forall k :: CountOf(s, k) == 0 <==> k !in s
  {
    forall k
      ensures CountOf(s, k) == 0 <==> k !in s
    {
      CountOfZero(s, k);
    }
  }

  /** k occurs in s exactly when its count is positive. */
  lemma {:induction false} CountOfZero<K>(s: seq<K>, k: K)
    ensures CountOf(s, k) == 0 <==> k !in s
    decreases |s|
  {
    if |s| > 0 {
      var init := s[..|s| - 1];
      CountOfZero(init, k);
      assert s == init + [s[|s| - 1]];
    }
  }

  lemma {:induction false} CountOfAppend<K>(a: seq<K>, b: seq<K>, k: K)
    ensures CountOf(a + b, k) == CountOf(a, k) + CountOf(b, k)
    decreases |b|
  {
    if |b| == 0 {
      assert a + b == a;
    } else {
      assert (a + b)[..|a + b| - 1] == a + b[..|b| - 1];
      CountOfAppend(a, b[..|b| - 1], k);
    }
  }

  /** True when no element occurs twice. */
  predicate NoDuplicates<K(==)>(s: seq<K>)
  {
    forall i, j :: 0 <= i < j < |s| ==> s[i] != s[j]
  }

  /** The distinct elements of s in order of first appearance (`[...new Set(s)]`, the keys of a grouping). */
  function Distinct<K(==,!new)>(s: seq<K>): (d: seq<K>)
    ensures NoDuplicates(d)
    ensures forall k :: k in d <==> k in s
    ensures |d| <= |s|
  {
    if |s| == 0 then []
    else
      var d := Distinct(s[..|s| - 1]);
      if s[|s| - 1] in d then
        assert forall k :: k in s <==> k in s[..|s| - 1] || k == s[|s| - 1];
        d
      else
        assert forall k :: k in s <==> k in s[..|s| - 1] || k == s[|s| - 1];
        d + [s[|s| - 1]]
  }

  /** Sum, over the listed keys, of how often each occurs in s. */
  function CountsOver<K(==)>(keys: seq<K>, s: seq<K>): nat
  {
    if |keys| == 0 then 0 else CountsOver(keys[..|keys| - 1], s) + CountOf(s, keys[|keys| - 1])
  }

  /** The group sizes of `groupingBy(key, counting())`: how often each key occurs in s. */
  function GroupSizes<K(==)>(s: seq<K>, keys: seq<K>): (r: seq<real>)
    ensures |r| == |keys|
    ensures forall i :: 0 <= i < |keys| ==> r[i] == CountOf(s, keys[i]) as real
  {
    seq(|keys|, i requires 0 <= i < |keys| => CountOf(s, keys[i]) as real)
  }

  /** The group sizes add up to the counts over the keys. */
  lemma {:induction false} GroupSizesSum<K>(s: seq<K>, keys: seq<K>)
    ensures Sum(GroupSizes(s, keys)) == CountsOver(keys, s) as real
    decreases |keys|
  {
    if |keys| > 0 {
      var init := keys[..|keys| - 1];
      GroupSizesSum(s, init);
      assert GroupSizes(s, keys)[..|keys| - 1] == GroupSizes(s, init);
    }
  }

  /** Every key that occurs in s has a group of at least one. */
  lemma GroupSizesAtLeastOne<K>(s: seq<K>, keys: seq<K>)
    requires forall k :: k in keys ==> k in s
    ensures forall i :: 0 <= i < |keys| ==> GroupSizes(s, keys)[i] >= 1.0
  {
    forall i | 0 <= i < |keys|
      ensures GroupSizes(s, keys)[i] >= 1.0
    {
      assert keys[i] in keys;
      CountOfZero(s, keys[i]);
    }
  }

  /** The mean of s, or `fallback` when s is empty (`average().orElse(fallback)`). */
  function MeanOr(s: seq<real>, fallback: real): (m: real)
    ensures |s| == 0 ==> m == fallback
  {
    if |s| == 0 then fallback else Sum(s) / (|s| as real)
  }

  /** A mean of values in [lo, hi], with a fallback in [lo, hi], lies in [lo, hi]. */
  lemma MeanOrBetween(s: seq<real>, fallback: real, lo: real, hi: real)
    requires lo <= fallback <= hi
    requires forall i :: 0 <= i < |s| ==> lo <= s[i] <= hi
    ensures lo <= MeanOr(s, fallback) <= hi
  {
    if |s| > 0 {
      SumAtLeast(s, lo);
      SumAtMost(s, hi);
      var n := |s| as real;
      assert Sum(s) / n >= (n * lo) / n;
      assert Sum(s) / n <= (n * hi) / n;
    }
  }

  /** A mean of values that are all at least one, with a fallback of at least one, is at least one. */
  lemma MeanOrAtLeastOne(s: seq<real>, fallback: real)
    requires fallback >= 1.0
    requires forall i :: 0 <= i < |s| ==> s[i] >= 1.0
    ensures MeanOr(s, fallback) >= 1.0
  {
    if |s| > 0 {
      SumAtLeast(s, 1.0);
      var total := Sum(s);
      var n := |s| as real;
      assert total >= n * 1.0;
      assert total / n >= 1.0;
    }
  }

  lemma {:induction false} CountsOverAppendOne<K>(keys: seq<K>, s: seq<K>, x: K)
    requires NoDuplicates(keys)
    ensures CountsOver(keys, s + [x]) == CountsOver(keys, s) + (if x in keys then 1 else 0)
    decreases |keys|
  {
    if |keys| > 0 {
      var init := keys[..|keys| - 1];
      assert keys == init + [keys[|keys| - 1]];
      CountsOverAppendOne(init, s, x);
      CountOfAppend(s, [x], keys[|keys| - 1]);
      assert x in keys <==> x in init || x == keys[|keys| - 1];
    }
  }

  /** Grouping s by value and counting each group accounts for every element exactly once. */
  lemma {:induction false} GroupCountsSumToLength<K(!new)>(s: seq<K>)
    ensures CountsOver(Distinct(s), s) == |s|
    decreases |s|
  {
    if |s| > 0 {
      var t := s[..|s| - 1];
      var x := s[|s| - 1];
      assert s == t + [x];
      GroupCountsSumToLength(t);
      CountsOverAppendOne(Distinct(t), t, x);
      if x !in t {
        var d := Distinct(t);
        assert Distinct(s) == d + [x];
        assert (d + [x])[..|d + [x]| - 1] == d;
        CountOfAppend(t, [x], x);
        CountOfZero(t, x);
      }
    }
  }

  lemma {:induction false} CountsOverAppend<K>(a: seq<K>, b: seq<K>, s: seq<K>)
    ensures CountsOver(a + b, s) == CountsOver(a, s) + CountsOver(b, s)
    decreases |b|
  {
    if |b| == 0 {
      assert a + b == a;
    } else {
      assert (a + b)[..|a + b| - 1] == a + b[..|b| - 1];
      CountsOverAppend(a, b[..|b| - 1], s);
    }
  }

  lemma MultisetCancel<K>(a: multiset<K>, b: multiset<K>, x: K)
    requires a + multiset{x} == b + multiset{x}
    ensures a == b
  {
    forall y
      ensures a[y] == b[y]
    {
      assert (a + multiset{x})[y] == (b + multiset{x})[y];
    }
  }

  /** Summing counts over the keys does not depend on the order of the keys. */
  lemma {:induction false} CountsOverPermutation<K>(a: seq<K>, b: seq<K>, s: seq<K>)
    requires multiset(a) == multiset(b)
    ensures CountsOver(a, s) == CountsOver(b, s)
    decreases |a|
  {
    if |a| > 0 {
      var x := a[|a| - 1];
      var init := a[..|a| - 1];
      assert a == init + [x];
      assert x in multiset(b);
      var i :| 0 <= i < |b| && b[i] == x;
      var rest := b[..i] + b[i + 1..];
      assert b == b[..i] + [x] + b[i + 1..];
      assert multiset(b) == multiset(b[..i]) + multiset{x} + multiset(b[i + 1..]);
      assert multiset(a) == multiset(init) + multiset{x};
      assert multiset(rest) == multiset(b[..i]) + multiset(b[i + 1..]);
      MultisetCancel(multiset(init), multiset(rest), x);
      CountsOverPermutation(init, rest, s);
      CountsOverAppend(b[..i] + [x], b[i + 1..], s);
      CountsOverAppend(b[..i], [x], s);
      CountsOverAppend(b[..i], b[i + 1..], s);
      assert [x][..0] == [];
    }
  }

  /** Replacing one element changes a count by at most the two elements involved. */
  lemma {:induction false} CountUpdate<T>(s: seq<T>, i: nat, v: T, p: T -> bool)
    requires i < |s|
    ensures Count(s[i := v], p) == Count(s, p) - (if p(s[i]) then 1 else 0) + (if p(v) then 1 else 0)
    decreases |s|
  {
    if i < |s| - 1 {
      assert s[i := v][..|s| - 1] == s[..|s| - 1][i := v];
      CountUpdate(s[..|s| - 1], i, v, p);
    } else {
      assert s[i := v][..|s| - 1] == s[..|s| - 1];
    }
  }

  function Square(x: real): (r: real)
    ensures 0.0 <= r
  {
    x * x
  }

  /** The square of a non-zero number is positive. */
  lemma SquarePositive(x: real)
    requires x != 0.0
    ensures Square(x) > 0.0
  {
    if x > 0.0 {
      Numerics.ProductPositive(x, x, Square(x));
    } else {
      Numerics.ProductPositive(-x, -x, Square(x));
    }
  }

  function SquaredDeviations(values: seq<real>, center: real): (r: seq<real>)
    ensures |r| == |values|
    ensures forall i :: 0 <= i < |r| ==> r[i] == Square(values[i] - center)
  {
    seq(|values|, i requires 0 <= i < |values| => Square(values[i] - center))
  }

  /** Mean squared deviation from `center` (the population variance when `center` is the mean). */
  function PopulationVariance(values: seq<real>, center: real): (v: real)
    requires |values| > 0
    ensures v >= 0.0
  {
    var sq := SquaredDeviations(values, center);
    SumNonNegative(sq);
    Sum(sq) / (|values| as real)
  }

  /** The mean squared deviation from `center` is 0 exactly when every value equals `center`. */
  lemma PopulationVarianceZero(values: seq<real>, center: real)
    requires |values| > 0
    ensures PopulationVariance(values, center) == 0.0 <==> forall i :: 0 <= i < |values| ==> values[i] == center
  {
    var sq := SquaredDeviations(values, center);
    SumNonNegative(sq);
    if forall i :: 0 <= i < |values| ==> values[i] == center {
      SumZero(sq);
    } else {
      var k :| 0 <= k < |values| && values[k] != center;
      SquarePositive(values[k] - center);
      SumZeroOnlyIfAllZero(sq, k);
      assert Sum(sq) > 0.0;
    }
  }

  /** Population variance about the mean (`jStat.variance(s)`). */
  function Variance(s: seq<real>): (v: real)
    requires |s| > 0
    ensures v >= 0.0
  {
    PopulationVariance(s, Mean(s))
  }

  /** Two different values give a positive variance. */
  lemma VaryingVariancePositive(values: seq<real>, i: nat, j: nat)
    requires i < |values| && j < |values| && values[i] != values[j]
    ensures Variance(values) > 0.0
  {
    PopulationVarianceZero(values, Mean(values));
  }

  /** A sum over a one-element prefix. */
  lemma SumCons(x: real, s: seq<real>)
    ensures Sum([x] + s) == x + Sum(s)
  {
    SumAppend([x], s);
    assert Sum([x]) == Sum([]) + x;
  }

  /** The sum of n copies of c is n times c. */
  lemma {:induction false} SumConstant(s: seq<real>, c: real)
    requires forall i :: 0 <= i < |s| ==> s[i] == c
    ensures Sum(s) == (|s| as real) * c
    decreases |s|
  {
    if |s| > 0 {
      SumConstant(s[..|s| - 1], c);
    }
  }
}
