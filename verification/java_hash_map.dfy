/**
 * The iteration order of the `java.util.HashMap` that
 * `Collectors.groupingBy` fills through `computeIfAbsent`, for `Integer`
 * keys below 24 (the hours of a day), as the OpenJDK implementation
 * (version 8 and later) lays it out.
 *
 * The table starts with 16 buckets and a threshold of 12 (load factor
 * 0.75). `computeIfAbsent` first doubles the table when the map already
 * holds more than 12 keys, then links a new key at the HEAD of its
 * bucket. An `Integer`'s hash is its value, left unchanged by `hash()`
 * below 65536, and the bucket is `hash & (length - 1)`, which for a
 * power of two is `hash % length`. Iteration visits the buckets in index
 * order, each from its head.
 *
 * With keys below 24 there are at most 24 entries, so at most one resize
 * (to 32 buckets, threshold 24); after it every key has a bucket of its
 * own, so the order within a bucket matters only for the 16-bucket table.
 */
module JavaHashMap {
  import Seqs

  const InitialCapacity: nat := 16
  const InitialThreshold: nat := 12

  /** The keys the model covers: hours of a day. */
  predicate SmallKeys(keys: seq<int>)
  {
    forall i :: 0 <= i < |keys| ==> 0 <= keys[i] < 24
  }

  /**
   * The table length after `keys` went through `computeIfAbsent` in order.
   * The call for the key at position i resizes first when the keys before
   * it already hold more than 12 distinct values; the distinct count only
   * grows, so the last call decides.
   */
  function Capacity(keys: seq<int>): (cap: nat)
    ensures cap == InitialCapacity || cap == 2 * InitialCapacity
    ensures cap == 2 * InitialCapacity <==> exists i :: 0 <= i < |keys| && |Seqs.Distinct(keys[..i])| > InitialThreshold
  {
    if |keys| > 0 && |Seqs.Distinct(keys[..|keys| - 1])| > InitialThreshold then
      2 * InitialCapacity
    else
      assert forall i :: 0 <= i < |keys| ==> |Seqs.Distinct(keys[..i])| <= InitialThreshold by {
        forall i | 0 <= i < |keys|
          ensures |Seqs.Distinct(keys[..i])| <= InitialThreshold
        {
          DistinctGrows(keys[..|keys| - 1], i);
          assert keys[..|keys| - 1][..i] == keys[..i];
        }
      }
      InitialCapacity
  }

  /** A prefix has no more distinct values than the whole. */
  lemma {:induction false} DistinctGrows(s: seq<int>, i: nat)
    requires i <= |s|
    ensures |Seqs.Distinct(s[..i])| <= |Seqs.Distinct(s)|
    decreases |s|
  {
    if i < |s| {
      DistinctGrows(s[..|s| - 1], i);
      assert s[..|s| - 1][..i] == s[..i];
    } else {
      assert s[..i] == s;
    }
  }

  /** The bucket index of a key. */
  function Bucket(k: int, cap: nat): (b: int)
    requires cap > 0
    ensures 0 <= b < cap
  {
    k % cap
  }

  /** `a` comes before `b` in the iteration: a lower bucket, or the same bucket and a later first insertion. */
  predicate Precedes(inserted: seq<int>, cap: nat, a: int, b: int)
    requires cap > 0
  {
    Bucket(a, cap) < Bucket(b, cap)
    || (Bucket(a, cap) == Bucket(b, cap) && Seqs.IndexOf(inserted, b) < Seqs.IndexOf(inserted, a))
  }

  /** Bucket b's chain, head first: the keys that land there, latest inserted first. */
  function Chain(inserted: seq<int>, cap: nat, b: int): (r: seq<int>)
    requires cap > 0
    ensures forall k :: k in r <==> k in inserted && Bucket(k, cap) == b
    ensures Seqs.NoDuplicates(inserted) ==> Seqs.NoDuplicates(r)
    ensures Seqs.NoDuplicates(inserted) ==>
      forall i, j :: 0 <= i < j < |r| ==> Seqs.IndexOf(inserted, r[j]) < Seqs.IndexOf(inserted, r[i])
  {
    var inBucket := k => Bucket(k, cap) == b;
    FilterFacts(inserted, inBucket);
    Seqs.ReverseMembers(Seqs.Filter(inserted, inBucket));
    Seqs.Reverse(Seqs.Filter(inserted, inBucket))
  }

  /** What a filter keeps of a sequence of insertions: the members that pass, once each, in insertion order. */
  lemma FilterFacts(inserted: seq<int>, p: int -> bool)
    ensures forall k :: k in Seqs.Filter(inserted, p) <==> k in inserted && p(k)
    ensures Seqs.NoDuplicates(inserted) ==> Seqs.NoDuplicates(Seqs.Filter(inserted, p))
    ensures Seqs.NoDuplicates(inserted) ==> forall i, j :: 0 <= i < j < |Seqs.Filter(inserted, p)| ==>
      Seqs.IndexOf(inserted, Seqs.Filter(inserted, p)[i]) < Seqs.IndexOf(inserted, Seqs.Filter(inserted, p)[j])
  {
    var f := Seqs.Filter(inserted, p);
    if Seqs.NoDuplicates(inserted) {
      Seqs.FilterNoDuplicates(inserted, p);
      ChainOrder(inserted, f, p);
    }
    forall k | k in inserted && p(k)
      ensures k in f
    {
      Seqs.FilterKeeps(inserted, p, k);
    }
  }

  /** Filtering keeps the order of first insertion. */
  lemma ChainOrder(inserted: seq<int>, f: seq<int>, p: int -> bool)
    requires Seqs.NoDuplicates(inserted) && f == Seqs.Filter(inserted, p)
    ensures forall i, j :: 0 <= i < j < |f| ==> Seqs.IndexOf(inserted, f[i]) < Seqs.IndexOf(inserted, f[j])
  {
    var earlier := (x: int, y: int) => Seqs.IndexOf(inserted, x) < Seqs.IndexOf(inserted, y);
    forall i, j | 0 <= i < j < |inserted|
      ensures earlier(inserted[i], inserted[j])
    {
      Seqs.IndexOfDistinct(inserted, i);
      Seqs.IndexOfDistinct(inserted, j);
    }
    Seqs.FilterKeepsOrder(inserted, p, earlier);
  }

  /** The chains of buckets b to cap - 1, in bucket order. */
  function Walk(inserted: seq<int>, cap: nat, b: nat): seq<int>
    requires cap > 0
    decreases cap - b
  {
    if b >= cap then [] else Chain(inserted, cap, b) + Walk(inserted, cap, b + 1)
  }

  /** w lists each key of bucket b or later once, in `Precedes` order. */
  predicate WalkFrom(inserted: seq<int>, cap: nat, b: nat, w: seq<int>)
    requires cap > 0
  {
    (forall k :: k in w ==> k in inserted && b <= Bucket(k, cap))
    && (forall k :: k in inserted && b <= Bucket(k, cap) ==> k in w)
    && Seqs.NoDuplicates(w)
    && forall i, j :: 0 <= i < j < |w| ==> Precedes(inserted, cap, w[i], w[j])
  }

  /** The walk from bucket b lists each key of bucket b or later once, in `Precedes` order. */
  lemma {:induction false} WalkOrder(inserted: seq<int>, cap: nat, b: nat)
    requires cap > 0 && Seqs.NoDuplicates(inserted)
    ensures WalkFrom(inserted, cap, b, Walk(inserted, cap, b))
    decreases cap - b
  {
    if b < cap {
      WalkOrder(inserted, cap, b + 1);
      var c, rest := Chain(inserted, cap, b), Walk(inserted, cap, b + 1);
      ChainThenRest(inserted, cap, b, c, rest);
      assert Walk(inserted, cap, b) == c + rest;
    } else {
      assert Walk(inserted, cap, b) == [];
    }
  }

  /** Bucket b's chain followed by the walk of the later buckets is the walk from bucket b. */
  lemma ChainThenRest(inserted: seq<int>, cap: nat, b: nat, c: seq<int>, rest: seq<int>)
    requires cap > 0 && b < cap && Seqs.NoDuplicates(inserted)
    requires c == Chain(inserted, cap, b)
    requires WalkFrom(inserted, cap, b + 1, rest)
    ensures WalkFrom(inserted, cap, b, c + rest)
  {
    var w := c + rest;
    forall k
      ensures k in w <==> k in inserted && b <= Bucket(k, cap)
    {
      assert k in w <==> k in c || k in rest;
    }
    forall i, j | 0 <= i < j < |w|
      ensures w[i] != w[j] && Precedes(inserted, cap, w[i], w[j])
    {
      if j < |c| {
        assert w[i] == c[i] && w[j] == c[j];
      } else if i < |c| {
        assert w[i] == c[i] && w[j] == rest[j - |c|];
        assert c[i] in c && rest[j - |c|] in rest;
      } else {
        assert w[i] == rest[i - |c|] && w[j] == rest[j - |c|];
      }
    }
  }

  /**
   * The entry order of the map that `groupingBy` builds from `keys`: each
   * distinct key once, ordered by bucket, and within a bucket the key
   * inserted last first.
   */
  function IterationOrder(keys: seq<int>): (r: seq<int>)
    requires SmallKeys(keys)
    ensures forall k :: k in r <==> k in keys
    ensures Seqs.NoDuplicates(r)
    ensures forall i, j :: 0 <= i < j < |r| ==>
      Precedes(Seqs.Distinct(keys), Capacity(keys), r[i], r[j])
  {
    WalkOrder(Seqs.Distinct(keys), Capacity(keys), 0);
    Walk(Seqs.Distinct(keys), Capacity(keys), 0)
  }

  /** Once the table has 32 buckets, the keys come out ascending. */
  lemma AscendingAfterResize(keys: seq<int>, r: seq<int>)
    requires SmallKeys(keys) && Capacity(keys) == 2 * InitialCapacity
    requires Seqs.NoDuplicates(r) && forall k :: k in r ==> k in keys
    requires forall i, j :: 0 <= i < j < |r| ==> Precedes(Seqs.Distinct(keys), Capacity(keys), r[i], r[j])
    ensures forall i, j :: 0 <= i < j < |r| ==> r[i] < r[j]
  {
    forall i, j | 0 <= i < j < |r|
      ensures r[i] < r[j]
    {
      assert Precedes(Seqs.Distinct(keys), 32, r[i], r[j]);
      OwnBucket(keys, r[i]);
      OwnBucket(keys, r[j]);
    }
  }

  /** In the 32-bucket table a key is its own bucket index. */
  lemma OwnBucket(keys: seq<int>, k: int)
    requires SmallKeys(keys) && k in keys
    ensures Bucket(k, 32) == k
  {
    var m :| 0 <= m < |keys| && keys[m] == k;
  }

}
