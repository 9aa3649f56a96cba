/**
 * The log-scaled confirmation-age histogram: the bucket transform, the
 * process-wide bucket array with its observed extents, and the walk that
 * produces the running counts.
 */
module Bucketing {
  const NEGATIVE_ORDERS: int := 1
  const POSITIVE_ORDERS: int := 10
  const NUM_BUCKETS_PER_ORDER: int := 1000
  const NUM_BUCKETS: int := NUM_BUCKETS_PER_ORDER * (POSITIVE_ORDERS + NEGATIVE_ORDERS)

  /**
   * `scale(age)` stands for ceil(NUM_BUCKETS_PER_ORDER * log10(age)), which
   * is floating point and is not modelled; where its shape matters, it is
   * only assumed to be monotone on positive ages.
   */
  ghost predicate MonotoneScale(scale: real -> int)
  {
    forall a: real, b: real :: 0.0 < a <= b ==> scale(a) <= scale(b)
  }

  /** The bucket of a confirmation age: the scaled age shifted by NEGATIVE_ORDERS decades, clamped below at 0. */
  function BucketIndex(scale: real -> int, age: real): (b: int)
    ensures 0 <= b
    ensures scale(age) + NEGATIVE_ORDERS * NUM_BUCKETS_PER_ORDER <= b
    ensures b == 0 || b == scale(age) + NEGATIVE_ORDERS * NUM_BUCKETS_PER_ORDER
  {
    var raw := scale(age) + NEGATIVE_ORDERS * NUM_BUCKETS_PER_ORDER;
    if raw < 0 then 0 else raw
  }

  /**
   * An age the histogram can take: log10 needs a positive age, and there is
   * no upper clamp, so the bucket must lie below NUM_BUCKETS.
   */
  ghost predicate Recordable(scale: real -> int, age: real)
  {
    0.0 < age && BucketIndex(scale, age) < NUM_BUCKETS
  }

  lemma BucketMonotone(scale: real -> int, a1: real, a2: real)
    requires MonotoneScale(scale)
    requires 0.0 < a1 <= a2
    ensures BucketIndex(scale, a1) <= BucketIndex(scale, a2)
  {
  }

  function Sum(s: seq<int>): int
  {
    if s == [] then 0 else s[0] + Sum(s[1..])
  }

  lemma {:induction false} SumConcat(a: seq<int>, b: seq<int>)
    ensures Sum(a + b) == Sum(a) + Sum(b)
  {
    if a == [] {
      assert a + b == b;
    } else {
      assert (a + b)[1..] == a[1..] + b;
      SumConcat(a[1..], b);
    }
  }

  lemma {:induction false} SumBump(s: seq<int>, k: int)
    requires 0 <= k < |s|
    ensures Sum(s[k := s[k] + 1]) == Sum(s) + 1
  {
    if k == 0 {
      assert s[k := s[k] + 1][1..] == s[1..];
    } else {
      assert s[k := s[k] + 1][1..] == s[1..][k - 1 := s[k] + 1];
      SumBump(s[1..], k - 1);
    }
  }

  lemma {:induction false} SumZeros(s: seq<int>)
    requires forall i :: 0 <= i < |s| ==> s[i] == 0
    ensures Sum(s) == 0
  {
    if s != [] {
      SumZeros(s[1..]);
    }
  }

  /** A window that holds every non-zero count has the same sum as the whole sequence. */
  lemma SumWindow(s: seq<int>, lo: int, hi: int)
    requires 0 <= lo <= hi <= |s|
    requires forall i :: 0 <= i < |s| && !(lo <= i < hi) ==> s[i] == 0
    ensures Sum(s[lo..hi]) == Sum(s)
  {
    assert s == s[..lo] + s[lo..hi] + s[hi..];
    SumConcat(s[..lo] + s[lo..hi], s[hi..]);
    SumConcat(s[..lo], s[lo..hi]);
    SumZeros(s[..lo]);
    SumZeros(s[hi..]);
  }

  lemma SumExtend(s: seq<int>, lo: int, hi: int)
    requires 0 <= lo <= hi < |s|
    ensures Sum(s[lo..hi + 1]) == Sum(s[lo..hi]) + s[hi]
  {
    assert s[lo..hi + 1] == s[lo..hi] + [s[hi]];
    SumConcat(s[lo..hi], [s[hi]]);
  }

  /** The bucket counts a sequence of observed indices gives, for buckets 0..n-1. */
  ghost function Tally(obs: seq<int>, n: nat): seq<int>
  {
    seq(n, i => multiset(obs)[i])
  }

  lemma TallySnoc(obs: seq<int>, b: int, n: nat)
    requires 0 <= b < n
    ensures Tally(obs + [b], n) == Tally(obs, n)[b := Tally(obs, n)[b] + 1]
  {
    assert multiset(obs + [b]) == multiset(obs) + multiset{b};
  }

  /** Histogram conservation: the counts of in-range observations add up to the number of observations. */
  lemma {:induction false} TallyTotal(obs: seq<int>, n: nat)
    requires forall x :: x in obs ==> 0 <= x < n
    ensures Sum(Tally(obs, n)) == |obs|
  {
    if obs == [] {
      SumZeros(Tally(obs, n));
    } else {
      var init, b := obs[..|obs| - 1], obs[|obs| - 1];
      assert obs == init + [b];
      assert b in obs;
      assert forall x :: x in init ==> x in obs;
      TallyTotal(init, n);
      TallySnoc(init, b, n);
      SumBump(Tally(init, n), b);
    }
  }

  /** The counts between the smallest and the largest observed index add up to the number of observations. */
  lemma TallyWindow(obs: seq<int>, lo: int, hi: int)
    requires forall x :: x in obs ==> 0 <= x < NUM_BUCKETS
    requires lo in obs && hi in obs
    requires forall x :: x in obs ==> lo <= x <= hi
    ensures Sum(Tally(obs, NUM_BUCKETS)[lo..hi + 1]) == |obs|
  {
    var t := Tally(obs, NUM_BUCKETS);
    TallyTotal(obs, NUM_BUCKETS);
    forall i | 0 <= i < |t| && !(lo <= i < hi + 1)
      ensures t[i] == 0
    {
      assert i !in obs;
    }
    SumWindow(t, lo, hi + 1);
  }

  /** One line of the report: bucket index, its count and the running count up to it. */
  datatype Row = Row(index: int, count: int, cumulative: int)

  /**
   * The report lines of a walk from bucket `lo`: line k is bucket lo + k, its
   * count, and the running count of buckets lo..lo + k.
   */
  ghost predicate Walk(rows: seq<Row>, counts: seq<int>, lo: int)
  {
    && 0 <= lo && lo + |rows| <= |counts|
    && forall k :: 0 <= k < |rows| ==> rows[k] == Row(lo + k, counts[lo + k], Sum(counts[lo..lo + k + 1]))
  }

  /** A walk goes on by one line, carrying the running count. */
  lemma WalkSnoc(rows: seq<Row>, counts: seq<int>, lo: int, cumulative: int)
    requires Walk(rows, counts, lo) && lo + |rows| < |counts|
    requires cumulative == Sum(counts[lo..lo + |rows| + 1])
    ensures Walk(rows + [Row(lo + |rows|, counts[lo + |rows|], cumulative)], counts, lo)
  {
  }

  /** The process-wide histogram; it is never reset between simulation runs. */
  class Histogram {
    const buckets: array<int>
    var smallestBucket: int
    var largestBucket: int
    var numResults: int
    /** Every bucket index recorded so far, in order. */
    ghost var Observed: seq<int>

    ghost predicate Valid()
      reads this, buckets
    {
      && buckets.Length == NUM_BUCKETS
      && numResults == |Observed|
      && (forall x :: x in Observed ==> 0 <= x < NUM_BUCKETS)
      && buckets[..] == Tally(Observed, NUM_BUCKETS)
      && (if Observed == [] then smallestBucket == NUM_BUCKETS && largestBucket == 0
          else && smallestBucket in Observed && largestBucket in Observed
               && forall x :: x in Observed ==> smallestBucket <= x <= largestBucket)
    }

    /** The initial values of the C globals: zero counts, smallest_bucket = NUM_BUCKETS, largest_bucket = 0. */
    constructor ()
      ensures Valid() && Observed == [] && fresh(buckets)
      ensures smallestBucket == NUM_BUCKETS && largestBucket == 0 && numResults == 0
    {
      buckets := new int[NUM_BUCKETS](_ => 0);
      smallestBucket := NUM_BUCKETS;
      largestBucket := 0;
      numResults := 0;
      Observed := [];
    }

    /** Count one cleared transaction in bucket `b` and widen the observed extents. */
    method Record(b: int)
      requires Valid()
      requires 0 <= b < NUM_BUCKETS
      modifies this, buckets
      ensures Valid()
      ensures Observed == old(Observed) + [b]
    {
      TallySnoc(Observed, b, NUM_BUCKETS);
      buckets[b] := buckets[b] + 1;
      if largestBucket < b {
        largestBucket := b;
      }
      if smallestBucket > b {
        smallestBucket := b;
      }
      numResults := numResults + 1;
      Observed := Observed + [b];
    }

    /**
     * Walk buckets smallestBucket..largestBucket keeping a running count.
     * The floating-point shares and representative ages of the printed
     * lines are left out; the running count ends at numResults.
     */
    method OutputResults() returns (rows: seq<Row>)
      requires Valid()
      ensures rows == [] <==> numResults == 0
      ensures numResults != 0 ==> |rows| == largestBucket - smallestBucket + 1
      ensures Walk(rows, buckets[..], smallestBucket)
      ensures rows != [] ==> rows[|rows| - 1].cumulative == numResults
    {
      ghost var counts := buckets[..];
      rows := [];
      var cumulative := 0;
      var i := smallestBucket;
      while i <= largestBucket
        invariant smallestBucket <= i <= NUM_BUCKETS
        invariant numResults != 0 ==> i <= largestBucket + 1
        invariant |rows| == i - smallestBucket
        invariant cumulative == Sum(counts[smallestBucket..i])
        invariant Walk(rows, counts, smallestBucket)
      {
        SumExtend(counts, smallestBucket, i);
        cumulative := cumulative + buckets[i];
        WalkSnoc(rows, counts, smallestBucket, cumulative);
        rows := rows + [Row(i, buckets[i], cumulative)];
        i := i + 1;
      }
      if numResults != 0 {
        TallyWindow(Observed, smallestBucket, largestBucket);
      }
    }
  }

  /** Conservation of the histogram: the bucket counts add up to num_results. */
  lemma BucketsSumToResults(h: Histogram)
    requires h.Valid()
    ensures Sum(h.buckets[..]) == h.numResults
  {
    TallyTotal(h.Observed, NUM_BUCKETS);
  }
}
