/**
 * The greedy block-clearing rule: records leave the head of the queue, in
 * arrival order, while the head still fits in the remaining block space.
 */
module Clearing {
  import opened Records
  import opened Bucketing

  /** How many head records one block clears from `queue` with `space` bytes. */
  function ClearCount(queue: seq<Entry>, space: int): (n: nat)
    requires 0 <= space
    ensures n <= |queue|
    ensures SizeSum(queue[..n]) <= space
    ensures n < |queue| ==> space - SizeSum(queue[..n]) < queue[n].size
    decreases |queue|
  {
    if queue == [] || space < queue[0].size then 0
    else
      var m := ClearCount(queue[1..], space - queue[0].size);
      assert queue[..m + 1][1..] == queue[1..][..m];
      1 + m
  }

  /** With every record of the fixed size, a block clears as many as fit, up to the queue length. */
  lemma {:induction false} ClearCountFixedSize(queue: seq<Entry>, space: int)
    requires 0 <= space
    requires FixedSize(queue)
    ensures ClearCount(queue, space) == Min(|queue|, space / TXN_SIZE)
    decreases |queue|
  {
    assert TXN_SIZE == 499;
    if queue != [] && TXN_SIZE <= space {
      ClearCountFixedSize(queue[1..], space - TXN_SIZE);
      assert (space - 499) / 499 == space / 499 - 1;
    }
  }

  /** Capacity bound: one block clears at most MAX_PER_BLOCK records, and their sizes add up to at most BLOCK_SPACE. */
  lemma BlockCapacity(queue: seq<Entry>)
    requires FixedSize(queue)
    ensures ClearCount(queue, BLOCK_SPACE) == Min(|queue|, MAX_PER_BLOCK)
    ensures SizeSum(queue[..ClearCount(queue, BLOCK_SPACE)]) <= BLOCK_SPACE
  {
    assert TXN_SIZE == 499 && BLOCK_SPACE == 1048576;
    assert BLOCK_SPACE / TXN_SIZE == MAX_PER_BLOCK;
    ClearCountFixedSize(queue, BLOCK_SPACE);
  }

  /** The bucket index of each cleared record, for a block found at `found`. */
  function BucketsFor(scale: real -> int, found: real, cleared: seq<Entry>): seq<int>
  {
    seq(|cleared|, i requires 0 <= i < |cleared| => BucketIndex(scale, found - cleared[i].time))
  }

  /** A head record that fits is cleared, and the rest of the block goes on with the space it leaves. */
  lemma ClearHeadFits(queue: seq<Entry>, space: int, rest: seq<Entry>, left: int)
    requires queue != [] && queue[0].size <= space
    requires rest == queue[1..] && left == space - queue[0].size && 0 <= left && 0 <= space
    ensures ClearCount(queue, space) == 1 + ClearCount(rest, left)
  {
  }

  /** Nothing is cleared once the queue is empty or its head does not fit. */
  lemma ClearNone(queue: seq<Entry>, space: int)
    requires 0 <= space && (queue == [] || space < queue[0].size)
    ensures ClearCount(queue, space) == 0
  {
  }

  /** Bucketing one more cleared record appends its bucket index. */
  lemma BucketsSnoc(scale: real -> int, found: real, cleared: seq<Entry>, e: Entry)
    ensures BucketsFor(scale, found, cleared + [e]) == BucketsFor(scale, found, cleared) + [BucketIndex(scale, found - e.time)]
  {
  }

  /** Recording the bucket of one more cleared entry extends the observed sequence by its bucket. */
  lemma BucketsPush(scale: real -> int, found: real, o0: seq<int>, gone: seq<Entry>, e: Entry, observed: seq<int>)
    requires observed == (o0 + BucketsFor(scale, found, gone)) + [BucketIndex(scale, found - e.time)]
    ensures observed == o0 + BucketsFor(scale, found, gone + [e])
  {
    BucketsSnoc(scale, found, gone, e);
  }

  /** The `i`-th record of `queue`, bucketed for a block found at `found`, lands in the histogram. */
  ghost predicate AgeFits(scale: real -> int, found: real, queue: seq<Entry>, i: int)
    requires 0 <= i < |queue|
  {
    Recordable(scale, found - queue[i].time)
  }

  /** Every record a block found at `found` would clear has an age the histogram can take. */
  ghost predicate Clearable(scale: real -> int, found: real, queue: seq<Entry>)
  {
    forall i {:trigger AgeFits(scale, found, queue, i)} :: 0 <= i < ClearCount(queue, BLOCK_SPACE) ==> AgeFits(scale, found, queue, i)
  }

  /** Part way through clearing, the next record that fits is one the block clears, so its age can be bucketed. */
  lemma ClearableAt(scale: real -> int, found: real, queue: seq<Entry>, gone: seq<Entry>, rest: seq<Entry>, space: int, k: int)
    requires Clearable(scale, found, queue)
    requires queue == gone + rest && k == |gone| && 0 <= space
    requires rest != [] && rest[0].size <= space
    requires ClearCount(queue, BLOCK_SPACE) == k + ClearCount(rest, space)
    ensures Recordable(scale, found - rest[0].time)
  {
    assert queue[k] == rest[0] && AgeFits(scale, found, queue, k);
  }
}
