/**
 * The pending-transaction queue and the reuse cache of retired records.
 *
 * Records live in an arena `recs`; a record number plays the part of a
 * pointer and NULL (-1) that of a null pointer. The pending queue is doubly
 * linked through `next`/`prev` from `pendingHead` to `pendingTail`; the
 * reuse cache is singly linked through `next` from `cacheHead`. The ghost
 * sequences `Pending` and `Free` name the records of each list in link order.
 */
module TxnPool {
  import opened Records
  import opened Bucketing
  import opened Clearing
  import opened Arrivals

  /** One transaction record (the unused fee is not modelled). */
  datatype Txn = Txn(next: int, prev: int, size: int, time: real)

  const NULL: int := -1

  function First(list: seq<int>): int
  {
    if list == [] then NULL else list[0]
  }

  function Last(list: seq<int>): int
  {
    if list == [] then NULL else list[|list| - 1]
  }

  /** The successor of the i-th record of a list. */
  function After(list: seq<int>, i: int): int
    requires 0 <= i < |list|
  {
    if i + 1 < |list| then list[i + 1] else NULL
  }

  /** The predecessor of the i-th record of a list. */
  function Before(list: seq<int>, i: int): int
    requires 0 <= i < |list|
  {
    if 0 < i then list[i - 1] else NULL
  }

  ghost predicate Within(list: seq<int>, n: int)
  {
    forall i :: 0 <= i < |list| ==> 0 <= list[i] < n
  }

  ghost predicate Distinct(list: seq<int>)
  {
    forall i, j :: 0 <= i < j < |list| ==> list[i] != list[j]
  }

  /**
   * `slot` numbers every listed record by its place: `i` for the i-th
   * pending record and `-1 - j` for the j-th cached one. A record can have
   * only one number, so no record is listed twice.
   */
  ghost predicate Numbered(slot: seq<int>, pending: seq<int>, free: seq<int>)
    requires Within(pending, |slot|) && Within(free, |slot|)
  {
    && (forall i :: 0 <= i < |pending| ==> slot[pending[i]] == i)
    && (forall j :: 0 <= j < |free| ==> slot[free[j]] == -1 - j)
  }

  /** The numbering once the cache head is taken: the rest of the cache moves up one place. */
  ghost function Promote(slot: seq<int>): seq<int>
  {
    seq(|slot|, r requires 0 <= r < |slot| => if slot[r] < 0 then slot[r] + 1 else slot[r])
  }

  /** The numbering once the queue head `h` moves onto the cache: every other listed record moves down one place. */
  ghost function Demote(slot: seq<int>, h: int): seq<int>
  {
    seq(|slot|, r requires 0 <= r < |slot| => if r == h then -1 else slot[r] - 1)
  }

  /** Each record's `next` names its successor in `list`. */
  ghost predicate Forward(recs: seq<Txn>, list: seq<int>)
    requires Within(list, |recs|)
  {
    forall i {:trigger recs[list[i]]} :: 0 <= i < |list| ==> recs[list[i]].next == After(list, i)
  }

  /** Each record's `prev` names its predecessor in `list`. */
  ghost predicate Backward(recs: seq<Txn>, list: seq<int>)
    requires Within(list, |recs|)
  {
    forall i {:trigger recs[list[i]]} :: 0 <= i < |list| ==> recs[list[i]].prev == Before(list, i)
  }

  /**
   * The queue invariant: both lists are made of allocated records, numbered
   * by `slot` (so distinct, and no record is on both), the head, tail and
   * cache pointers agree with the lists (so the head is NULL exactly when
   * the tail is), the links follow the lists, and pending records have the
   * fixed size.
   */
  ghost predicate Wellformed(recs: seq<Txn>, slot: seq<int>, pending: seq<int>, free: seq<int>, head: int, tail: int, cache: int)
  {
    && Within(pending, |recs|) && Within(free, |recs|) && |slot| == |recs|
    && Numbered(slot, pending, free)
    && head == First(pending) && tail == Last(pending) && cache == First(free)
    && Forward(recs, pending) && Backward(recs, pending) && Forward(recs, free)
    && (forall i {:trigger recs[pending[i]]} :: 0 <= i < |pending| ==> recs[pending[i]].size == TXN_SIZE)
  }

  /** Under the queue invariant the head is NULL exactly when the tail is, and exactly when nothing is pending. */
  lemma HeadNullIffTailNull(recs: seq<Txn>, slot: seq<int>, pending: seq<int>, free: seq<int>, head: int, tail: int, cache: int)
    requires Wellformed(recs, slot, pending, free, head, tail, cache)
    ensures head == NULL <==> tail == NULL
    ensures head == NULL <==> pending == []
  {
    if pending != [] {
      assert 0 <= pending[0] && 0 <= pending[|pending| - 1];
    }
  }

  /** The sizes and arrival times of the records of `list`, in list order. */
  ghost function EntriesOf(recs: seq<Txn>, list: seq<int>): seq<Entry>
    requires Within(list, |recs|)
  {
    seq(|list|, i requires 0 <= i < |list| => EntryAt(recs, list, i))
  }

  /** The size and arrival time of the `i`-th record of `list`. */
  ghost function EntryAt(recs: seq<Txn>, list: seq<int>, i: int): Entry
    requires Within(list, |recs|) && 0 <= i < |list|
  {
    Entry(recs[list[i]].size, recs[list[i]].time)
  }

  /** The record numbers lo, lo + 1, ..., lo + n - 1. */
  function Range(lo: int, n: nat): seq<int>
  {
    seq(n, i => lo + i)
  }

  lemma RangeSnoc(lo: int, n: nat)
    ensures Range(lo, n + 1) == Range(lo, n) + [lo + n]
  {
    assert forall i :: 0 <= i < n ==> Range(lo, n + 1)[i] == Range(lo, n)[i];
  }

  /**
   * The records handed out by `k` allocations starting from the cache `free`
   * and the record count `newRec`: the cache in list order while it lasts,
   * then new records numbered `newRec`, `newRec + 1`, ...
   */
  function Allocation(free: seq<int>, newRec: int, k: nat): seq<int>
  {
    free[..Min(k, |free|)] + Range(newRec, k - Min(k, |free|))
  }

  /**
   * One more allocation, in terms of the lists and record count before it:
   * it takes the cache head if the cache is not empty and a new record
   * otherwise.
   */
  lemma AllocationStep(pending0: seq<int>, free0: seq<int>, newRec: int, k: nat, pending: seq<int>, free: seq<int>, n: int)
    requires pending == pending0 + Allocation(free0, newRec, k)
    requires free == free0[Min(k, |free0|)..]
    requires n == newRec + (k - Min(k, |free0|))
    ensures free != [] ==> pending + [free[0]] == pending0 + Allocation(free0, newRec, k + 1)
                           && free[1..] == free0[Min(k + 1, |free0|)..]
                           && n == newRec + (k + 1 - Min(k + 1, |free0|))
    ensures free == [] ==> pending + [n] == pending0 + Allocation(free0, newRec, k + 1)
                           && free == free0[Min(k + 1, |free0|)..]
                           && n + 1 == newRec + (k + 1 - Min(k + 1, |free0|))
  {
    if k < |free0| {
      assert free0[..k + 1] == free0[..k] + [free0[k]];
      assert Range(newRec, 0) == [];
    } else {
      RangeSnoc(newRec, k - |free0|);
    }
  }

  function Reversed(s: seq<int>): seq<int>
  {
    if s == [] then [] else [s[|s| - 1]] + Reversed(s[..|s| - 1])
  }

  lemma ReversedSnoc(s: seq<int>, x: int)
    ensures Reversed(s + [x]) == [x] + Reversed(s)
  {
    assert (s + [x])[..|s|] == s;
  }

  /** Pushing `t` onto a cache that holds `cleared` in reverse above `f0`. */
  lemma ReversedPush(cleared: seq<int>, t: int, f0: seq<int>, free: seq<int>)
    requires free == [t] + (Reversed(cleared) + f0)
    ensures free == Reversed(cleared + [t]) + f0
  {
    ReversedSnoc(cleared, t);
  }

  /** A non-empty suffix ends where the whole list ends. */
  lemma LastOfSuffix(a: seq<int>, b: seq<int>)
    ensures b != [] ==> Last(a + b) == Last(b)
  {
  }

  /** Moving the head of `b` to the end of `a` leaves the concatenation unchanged. */
  lemma Shift<T>(a: seq<T>, b: seq<T>)
    requires b != []
    ensures a + b == (a + [b[0]]) + b[1..]
  {
    assert b == [b[0]] + b[1..];
  }

  /** A list of distinct record numbers below n has at most n records. */
  lemma {:induction false} DistinctWithin(s: seq<int>, n: int)
    requires 0 <= n && Distinct(s) && Within(s, n)
    ensures |s| <= n
    decreases |s|
  {
    if s != [] {
      var x := s[|s| - 1];
      var init := s[..|s| - 1];
      var moved := seq(|init|, i requires 0 <= i < |init| => if init[i] == n - 1 then x else init[i]);
      forall i, j | 0 <= i < j < |moved|
        ensures moved[i] != moved[j]
      {
        assert init[i] == s[i] && init[j] == s[j];
      }
      forall i | 0 <= i < |moved|
        ensures 0 <= moved[i] < n - 1
      {
        assert init[i] == s[i];
      }
      assert 0 <= s[0] < n;
      DistinctWithin(moved, n - 1);
    }
  }

  /** Under the queue invariant no record is pending twice, cached twice, or both pending and cached. */
  lemma PendingNotCached(recs: seq<Txn>, slot: seq<int>, pending: seq<int>, free: seq<int>, head: int, tail: int, cache: int)
    requires Wellformed(recs, slot, pending, free, head, tail, cache)
    ensures Distinct(pending) && Distinct(free)
    ensures forall x :: x in pending ==> x !in free
  {
    forall i, j | 0 <= i < j < |pending|
      ensures pending[i] != pending[j]
    {
      assert slot[pending[i]] == i && slot[pending[j]] == j;
    }
    forall i, j | 0 <= i < j < |free|
      ensures free[i] != free[j]
    {
      assert slot[free[i]] == -1 - i && slot[free[j]] == -1 - j;
    }
    forall x | x in pending
      ensures x !in free
    {
      var i :| 0 <= i < |pending| && pending[i] == x;
      assert slot[x] == i;
    }
  }

  /** Records in use (pending or cached) never outnumber the records ever allocated. */
  lemma InUseWithinAllocated(recs: seq<Txn>, slot: seq<int>, pending: seq<int>, free: seq<int>, head: int, tail: int, cache: int)
    requires Wellformed(recs, slot, pending, free, head, tail, cache)
    ensures |pending| + |free| <= |recs|
  {
    var both := pending + free;
    forall i, j | 0 <= i < j < |both|
      ensures both[i] != both[j]
    {
      if j < |pending| {
        assert slot[both[i]] == i && slot[both[j]] == j;
      } else if i < |pending| {
        assert both[j] == free[j - |pending|];
        assert slot[both[i]] == i && slot[both[j]] < 0;
      } else {
        assert both[i] == free[i - |pending|] && both[j] == free[j - |pending|];
        assert slot[both[i]] != slot[both[j]];
      }
    }
    DistinctWithin(both, |recs|);
  }

  /** Taking the first record off the cache leaves a well-formed pool without it. */
  lemma TakeKeepsWellformed(recs: seq<Txn>, slot: seq<int>, pending: seq<int>, free: seq<int>, head: int, tail: int)
    requires Wellformed(recs, slot, pending, free, head, tail, First(free))
    requires free != []
    ensures Wellformed(recs, Promote(slot), pending, free[1..], head, tail, recs[free[0]].next)
    ensures free[0] !in pending && free[0] !in free[1..]
  {
    var f, s := free[1..], Promote(slot);
    assert forall i :: 0 <= i < |f| ==> f[i] == free[i + 1];
    assert Within(f, |recs|);
    assert Numbered(s, pending, f) by {
      forall i | 0 <= i < |pending|
        ensures s[pending[i]] == i
      {
        assert slot[pending[i]] == i;
      }
      forall j | 0 <= j < |f|
        ensures s[f[j]] == -1 - j
      {
        assert slot[free[j + 1]] == -1 - (j + 1);
      }
    }
    assert Forward(recs, f) by {
      forall i | 0 <= i < |f|
        ensures recs[f[i]].next == After(f, i)
      {
        assert After(free, i + 1) == After(f, i);
      }
    }
    assert recs[free[0]].next == First(f);
    assert slot[free[0]] == -1;
  }

  /** Allocating a fresh record at the end of the arena leaves the lists and their entries as they were. */
  lemma GrowKeepsWellformed(recs: seq<Txn>, slot: seq<int>, x: Txn, pending: seq<int>, free: seq<int>, head: int, tail: int, cache: int)
    requires Wellformed(recs, slot, pending, free, head, tail, cache)
    ensures Wellformed(recs + [x], slot + [0], pending, free, head, tail, cache)
    ensures |recs| !in pending && |recs| !in free
    ensures EntriesOf(recs + [x], pending) == EntriesOf(recs, pending)
  {
    var r, s := recs + [x], slot + [0];
    assert forall i :: 0 <= i < |recs| ==> r[i] == recs[i] && s[i] == slot[i];
  }

  /** The shape facts of an append: the grown queue stays in range and numbered. */
  lemma AppendKeepsShape(slot: seq<int>, pending: seq<int>, free: seq<int>, t: int, n: int)
    requires Within(pending, n) && Within(free, n) && |slot| == n
    requires Numbered(slot, pending, free)
    requires 0 <= t < n && t !in pending && t !in free
    ensures Within(pending + [t], n) && Numbered(slot[t := |pending|], pending + [t], free)
  {
    var p, s := pending + [t], slot[t := |pending|];
    assert forall i :: 0 <= i < |pending| ==> p[i] == pending[i];
    forall i | 0 <= i < |pending|
      ensures s[p[i]] == i
    {
      assert pending[i] != t;
    }
    forall j | 0 <= j < |free|
      ensures s[free[j]] == -1 - j
    {
      assert free[j] != t;
    }
  }

  /** The link facts of an append. */
  lemma AppendKeepsLinks(recs: seq<Txn>, r: seq<Txn>, slot: seq<int>, pending: seq<int>, free: seq<int>, t: int, time: real)
    requires Within(pending, |recs|) && Within(free, |recs|) && |slot| == |recs|
    requires Numbered(slot, pending, free)
    requires Forward(recs, pending) && Backward(recs, pending) && Forward(recs, free)
    requires forall i {:trigger recs[pending[i]]} :: 0 <= i < |pending| ==> recs[pending[i]].size == TXN_SIZE
    requires 0 <= t < |recs| && t !in pending && t !in free
    requires |r| == |recs|
    requires r[t] == Txn(NULL, Last(pending), TXN_SIZE, time)
    requires pending != [] ==> r[Last(pending)] == recs[Last(pending)].(next := t)
    requires forall i :: 0 <= i < |recs| && i != t && i != Last(pending) ==> r[i] == recs[i]
    ensures var p := pending + [t];
            && Within(p, |r|) && Forward(r, p) && Backward(r, p) && Forward(r, free)
            && (forall i {:trigger r[p[i]]} :: 0 <= i < |p| ==> r[p[i]].size == TXN_SIZE)
            && EntriesOf(r, p) == EntriesOf(recs, pending) + [Entry(TXN_SIZE, time)]
  {
    var p := pending + [t];
    forall i | 0 <= i < |pending|
      ensures r[pending[i]].size == recs[pending[i]].size && r[pending[i]].time == recs[pending[i]].time
      ensures r[pending[i]].prev == recs[pending[i]].prev
      ensures i < |pending| - 1 ==> r[pending[i]].next == recs[pending[i]].next
    {
      if i < |pending| - 1 {
        assert slot[pending[i]] == i && slot[pending[|pending| - 1]] == |pending| - 1;
      }
    }
    forall i | 0 <= i < |free|
      ensures r[free[i]] == recs[free[i]]
    {
      assert free[i] != t;
      if pending != [] {
        assert slot[free[i]] < 0 <= slot[pending[|pending| - 1]];
      }
    }
    assert forall i :: 0 <= i < |pending| ==> p[i] == pending[i];
  }

  /** Linking record t, which is on neither list, behind the tail keeps the invariant and adds one entry. */
  lemma AppendKeepsWellformed(recs: seq<Txn>, r: seq<Txn>, slot: seq<int>, pending: seq<int>, free: seq<int>, t: int, time: real)
    requires Wellformed(recs, slot, pending, free, First(pending), Last(pending), First(free))
    requires 0 <= t < |recs| && t !in pending && t !in free
    requires |r| == |recs|
    requires r[t] == Txn(NULL, Last(pending), TXN_SIZE, time)
    requires pending != [] ==> r[Last(pending)] == recs[Last(pending)].(next := t)
    requires forall i :: 0 <= i < |recs| && i != t && i != Last(pending) ==> r[i] == recs[i]
    ensures Wellformed(r, slot[t := |pending|], pending + [t], free, First(pending + [t]), t, First(free))
    ensures EntriesOf(r, pending + [t]) == EntriesOf(recs, pending) + [Entry(TXN_SIZE, time)]
  {
    AppendKeepsShape(slot, pending, free, t, |recs|);
    AppendKeepsLinks(recs, r, slot, pending, free, t, time);
  }

  /** The shape facts of a pop: the rest of the queue and the grown cache stay in range and numbered. */
  lemma PopKeepsShape(slot: seq<int>, pending: seq<int>, free: seq<int>, n: int)
    requires Within(pending, n) && Within(free, n) && |slot| == n
    requires Numbered(slot, pending, free)
    requires pending != []
    ensures var p, f := pending[1..], [pending[0]] + free;
            Within(p, n) && Within(f, n) && Numbered(Demote(slot, pending[0]), p, f)
  {
    var p, f, s := pending[1..], [pending[0]] + free, Demote(slot, pending[0]);
    assert forall i :: 0 <= i < |p| ==> p[i] == pending[i + 1];
    assert forall i :: 0 <= i < |free| ==> f[i + 1] == free[i];
    forall i | 0 <= i < |p|
      ensures s[p[i]] == i
    {
      assert slot[pending[i + 1]] == i + 1 && slot[pending[0]] == 0;
    }
    forall j | 0 <= j < |f|
      ensures s[f[j]] == -1 - j
    {
      if 0 < j {
        assert slot[free[j - 1]] == -j && slot[pending[0]] == 0;
      }
    }
  }

  /** The link facts of a pop. */
  lemma PopKeepsLinks(recs: seq<Txn>, r: seq<Txn>, slot: seq<int>, pending: seq<int>, free: seq<int>)
    requires Within(pending, |recs|) && Within(free, |recs|) && |slot| == |recs|
    requires Numbered(slot, pending, free)
    requires Forward(recs, pending) && Backward(recs, pending) && Forward(recs, free)
    requires pending != []
    requires |r| == |recs|
    requires r[pending[0]] == recs[pending[0]].(next := First(free))
    requires 1 < |pending| ==> r[pending[1]] == recs[pending[1]].(prev := NULL)
    requires forall i :: 0 <= i < |recs| && i != pending[0] && i != After(pending, 0) ==> r[i] == recs[i]
    ensures var p, f := pending[1..], [pending[0]] + free;
            Within(p, |r|) && Within(f, |r|) && Forward(r, p) && Backward(r, p) && Forward(r, f)
    ensures forall i :: 1 <= i < |pending| ==> r[pending[i]].size == recs[pending[i]].size
    ensures forall i :: 1 <= i < |pending| ==> r[pending[i]].time == recs[pending[i]].time
  {
    var p, f := pending[1..], [pending[0]] + free;
    assert forall i :: 0 <= i < |p| ==> p[i] == pending[i + 1];
    assert forall i :: 0 <= i < |free| ==> f[i + 1] == free[i];
    forall i | 1 <= i < |pending|
      ensures r[pending[i]].size == recs[pending[i]].size && r[pending[i]].time == recs[pending[i]].time
    {
      assert slot[pending[i]] == i && slot[pending[0]] == 0;
    }
    forall i | 0 <= i < |p|
      ensures r[p[i]].next == After(p, i) && r[p[i]].prev == Before(p, i)
    {
      assert After(pending, i + 1) == After(p, i);
      assert slot[pending[i + 1]] == i + 1 && slot[pending[0]] == 0;
      if 0 < i {
        assert slot[pending[1]] == 1;
        assert r[p[i]] == recs[pending[i + 1]];
      }
    }
    forall i | 0 <= i < |f|
      ensures r[f[i]].next == After(f, i)
    {
      if 0 < i {
        assert slot[free[i - 1]] < 0 && slot[pending[0]] == 0;
        assert 1 < |pending| ==> slot[pending[1]] == 1;
        assert r[f[i]] == recs[free[i - 1]];
      }
    }
  }

  /** Unlinking the head onto the cache, and nulling the new head's prev, keeps the invariant and drops the first entry. */
  lemma PopKeepsWellformed(recs: seq<Txn>, r: seq<Txn>, slot: seq<int>, pending: seq<int>, free: seq<int>, tail: int)
    requires Wellformed(recs, slot, pending, free, First(pending), tail, First(free))
    requires pending != []
    requires |r| == |recs|
    requires r[pending[0]] == recs[pending[0]].(next := First(free))
    requires 1 < |pending| ==> r[pending[1]] == recs[pending[1]].(prev := NULL)
    requires forall i :: 0 <= i < |recs| && i != pending[0] && i != After(pending, 0) ==> r[i] == recs[i]
    ensures Wellformed(r, Demote(slot, pending[0]), pending[1..], [pending[0]] + free, First(pending[1..]), Last(pending[1..]), pending[0])
    ensures EntriesOf(r, pending[1..]) == EntriesOf(recs, pending)[1..]
  {
    PopKeepsShape(slot, pending, free, |recs|);
    PopKeepsLinks(recs, r, slot, pending, free);
    var p := pending[1..];
    assert forall i :: 0 <= i < |p| ==> p[i] == pending[i + 1];
  }

  class Pool {
    var recs: seq<Txn>
    var pendingHead: int
    var pendingTail: int
    var cacheHead: int
    var nextTransactionSecs: real
    ghost var Pending: seq<int>
    ghost var Free: seq<int>
    ghost var Slot: seq<int>

    ghost predicate Valid()
      reads this
    {
      Wellformed(recs, Slot, Pending, Free, pendingHead, pendingTail, cacheHead)
    }

    /** The pending queue as sizes and arrival times, head first. */
    ghost function Entries(): seq<Entry>
      reads this
      requires Valid()
    {
      EntriesOf(recs, Pending)
    }

    /** The initial values of the C globals: both lists empty, next arrival at time 0. */
    constructor ()
      ensures Valid()
      ensures recs == [] && Pending == [] && Free == [] && nextTransactionSecs == 0.0
    {
      recs := [];
      pendingHead, pendingTail, cacheHead := NULL, NULL, NULL;
      nextTransactionSecs := 0.0;
      Pending, Free, Slot := [], [], [];
    }

    /** Take the cache head for reuse if there is one, otherwise a fresh record. */
    method Allocate() returns (t: int)
      requires Valid()
      modifies this
      ensures Valid()
      ensures 0 <= t < |recs| && t !in Pending && t !in Free
      ensures Pending == old(Pending) && Entries() == old(Entries())
      ensures old(Free) != [] ==> t == old(Free)[0] && Free == old(Free)[1..] && recs == old(recs)
      ensures old(Free) == [] ==> t == old(|recs|) && |recs| == t + 1 && recs[..t] == old(recs) && Free == []
      ensures pendingHead == old(pendingHead) && pendingTail == old(pendingTail)
      ensures nextTransactionSecs == old(nextTransactionSecs)
    {
      t := cacheHead;
      if t != NULL {
        TakeKeepsWellformed(recs, Slot, Pending, Free, pendingHead, pendingTail);
        cacheHead := recs[t].next;
        Free, Slot := Free[1..], Promote(Slot);
      } else {
        t := |recs|;
        // the contents of freshly allocated memory are unspecified
        var unset := Txn(NULL, NULL, 0, 0.0);
        GrowKeepsWellformed(recs, Slot, unset, Pending, Free, pendingHead, pendingTail, cacheHead);
        recs := recs + [unset];
        Slot := Slot + [0];
      }
    }

    /** Stamp record t with the fixed size and arrival `time` and link it in behind the tail. */
    method Append(t: int, time: real)
      requires Valid()
      requires 0 <= t < |recs| && t !in Pending && t !in Free
      modifies this
      ensures Valid()
      ensures Pending == old(Pending) + [t] && Free == old(Free)
      ensures Entries() == old(Entries()) + [Entry(TXN_SIZE, time)]
      ensures |recs| == old(|recs|) && cacheHead == old(cacheHead)
      ensures nextTransactionSecs == old(nextTransactionSecs)
    {
      ghost var r0 := recs;
      recs := recs[t := recs[t].(size := TXN_SIZE, time := time)];
      if pendingHead == NULL {
        pendingHead := t;
      } else {
        recs := recs[pendingTail := recs[pendingTail].(next := t)];
      }
      recs := recs[t := recs[t].(next := NULL, prev := pendingTail)];
      pendingTail := t;
      AppendKeepsWellformed(r0, recs, Slot, Pending, Free, t, time);
      Pending, Slot := Pending + [t], Slot[t := |Pending|];
    }

    /**
     * One pass of the arrival loop: obtain a record, reused or fresh, stamp
     * it with the pending arrival time, append it, and move the pending
     * arrival time on by `gap`.
     */
    method Admit(gap: real)
      requires Valid()
      modifies this
      ensures Valid()
      ensures Entries() == old(Entries()) + [Entry(TXN_SIZE, old(nextTransactionSecs))]
      ensures nextTransactionSecs == old(nextTransactionSecs) + gap
      ensures old(Free) != [] ==> Pending == old(Pending) + [old(Free)[0]] && Free == old(Free)[1..] && |recs| == old(|recs|)
      ensures old(Free) == [] ==> Pending == old(Pending) + [old(|recs|)] && Free == [] && |recs| == old(|recs|) + 1
    {
      var t := Allocate();
      Append(t, nextTransactionSecs);
      nextTransactionSecs := nextTransactionSecs + gap;
    }

    /**
     * The state part way through the admission loop: `k` records have been
     * admitted, with entries `admitted`, since the clock stood at `next0`
     * over the queue `p0` (entries `e0`), the cache `f0` and an arena of
     * `n0` records; what is still to come is the rest of the admissions
     * from the current clock and the remaining gaps.
     */
    ghost predicate Admitting(blockEndSecs: real, gaps: seq<real>, k: int, next0: real,
                              p0: seq<int>, f0: seq<int>, n0: int, e0: seq<Entry>, admitted: seq<Entry>)
      reads this
    {
      && Valid()
      && 0 <= k <= |gaps| && |admitted| == k
      && Entries() == e0 + admitted
      && admitted + Admitted(nextTransactionSecs, blockEndSecs, gaps[k..]) == Admitted(next0, blockEndSecs, gaps)
      && ClockAfter(nextTransactionSecs, blockEndSecs, gaps[k..]) == ClockAfter(next0, blockEndSecs, gaps)
      && Pending == p0 + Allocation(f0, n0, k)
      && Free == f0[Min(k, |f0|)..]
      && |recs| == n0 + (k - Min(k, |f0|))
    }

    /** One pass of the admission loop, with the loop's bookkeeping. */
    method AdmitNext(gap: real, blockEndSecs: real, gaps: seq<real>, ghost k: int, ghost next0: real,
                     ghost p0: seq<int>, ghost f0: seq<int>, ghost n0: int, ghost e0: seq<Entry>, ghost admitted: seq<Entry>)
      returns (ghost admitted1: seq<Entry>)
      requires Admitting(blockEndSecs, gaps, k, next0, p0, f0, n0, e0, admitted)
      requires nextTransactionSecs <= blockEndSecs && k < |gaps| && gap == gaps[k]
      modifies this
      ensures Admitting(blockEndSecs, gaps, k + 1, next0, p0, f0, n0, e0, admitted1)
    {
      ghost var clock := nextTransactionSecs;
      AllocationStep(p0, f0, n0, k, Pending, Free, |recs|);
      Admit(gap);
      AdmitAdvance(next0, clock, nextTransactionSecs, blockEndSecs, gaps, k, admitted);
      admitted1 := admitted + [Entry(TXN_SIZE, clock)];
    }

    /**
     * Admit records stamped with the pending arrival time while it is no
     * later than `blockEndSecs`, advancing it by one sampled gap after each
     * admission; returns the number admitted. `gaps` are the samples.
     */
    method SimTransactions(blockEndSecs: real, gaps: seq<real>) returns (transactions: int)
      requires Valid()
      requires Sufficient(nextTransactionSecs, blockEndSecs, gaps)
      modifies this
      ensures Valid()
      ensures transactions == |Admitted(old(nextTransactionSecs), blockEndSecs, gaps)|
      ensures Entries() == old(Entries()) + Admitted(old(nextTransactionSecs), blockEndSecs, gaps)
      ensures nextTransactionSecs == ClockAfter(old(nextTransactionSecs), blockEndSecs, gaps)
      ensures blockEndSecs < nextTransactionSecs
      ensures Pending == old(Pending) + Allocation(old(Free), old(|recs|), transactions)
      ensures Free == old(Free)[Min(transactions, |old(Free)|)..]
      ensures |recs| == old(|recs|) + (transactions - Min(transactions, |old(Free)|))
    {
      ghost var next0, P0, F0, R0, E0 := nextTransactionSecs, Pending, Free, |recs|, Entries();
      ghost var admitted: seq<Entry> := [];
      ClockPassesBlockEnd(next0, blockEndSecs, gaps);
      assert F0[..0] == [] && Range(R0, 0) == [];
      transactions := 0;
      while nextTransactionSecs <= blockEndSecs
        invariant Admitting(blockEndSecs, gaps, transactions, next0, P0, F0, R0, E0, admitted)
        decreases |gaps| - transactions
      {
        GapsRemain(next0, nextTransactionSecs, blockEndSecs, gaps, transactions);
        var transactionArrival := gaps[transactions];
        admitted := AdmitNext(transactionArrival, blockEndSecs, gaps, transactions, next0, P0, F0, R0, E0, admitted);
        transactions := transactions + 1;
      }
      assert Admitted(nextTransactionSecs, blockEndSecs, gaps[transactions..]) == [];
      assert admitted + [] == admitted;
    }

    /**
     * The pointer surgery of one pass of the clearing loop: push the head
     * onto the cache and make its successor the new head, with its `prev`
     * cleared, or clear the tail when the queue empties. Returns the new head.
     */
    method PopHead() returns (next: int)
      requires Valid() && Pending != []
      modifies this
      ensures Valid()
      ensures Pending == old(Pending)[1..] && Free == [old(Pending)[0]] + old(Free)
      ensures Entries() == old(Entries())[1..]
      ensures next == pendingHead == First(Pending) && cacheHead == old(Pending)[0]
      ensures pendingTail == if Pending == [] then NULL else old(pendingTail)
      ensures next != NULL ==> recs[next].prev == NULL
      ensures |recs| == old(|recs|) && nextTransactionSecs == old(nextTransactionSecs)
    {
      var t := pendingHead;
      ghost var r0, tail0 := recs, pendingTail;
      next := recs[t].next;
      recs := recs[t := recs[t].(next := cacheHead)];
      cacheHead := t;
      pendingHead := next;
      if next != NULL {
        recs := recs[next := recs[next].(prev := NULL)];
      } else {
        pendingTail := NULL;
      }
      PopKeepsWellformed(r0, recs, Slot, Pending, Free, tail0);
      Pending, Free, Slot := Pending[1..], [t] + Free, Demote(Slot, t);
    }

    /**
     * One pass of the clearing loop: bucket the head's age at
     * `blockFoundTime` into `hist`, then unlink the head onto the cache.
     * Returns the new head.
     */
    method ClearHead(blockFoundTime: real, scale: real -> int, hist: Histogram) returns (next: int)
      requires Valid() && hist.Valid()
      requires Pending != [] && Recordable(scale, blockFoundTime - Entries()[0].time)
      modifies this, hist, hist.buckets
      ensures Valid() && hist.Valid()
      ensures Pending == old(Pending)[1..] && Free == [old(Pending)[0]] + old(Free)
      ensures Entries() == old(Entries())[1..]
      ensures next == pendingHead == First(Pending)
      ensures pendingTail == if Pending == [] then NULL else old(pendingTail)
      ensures |recs| == old(|recs|) && nextTransactionSecs == old(nextTransactionSecs)
      ensures hist.Observed == old(hist.Observed) + [BucketIndex(scale, blockFoundTime - old(Entries())[0].time)]
    {
      var t := pendingHead;
      assert Entries()[0].time == recs[t].time;
      var age := blockFoundTime - recs[t].time;
      var b := BucketIndex(scale, age);
      hist.Record(b);
      next := PopHead();
    }

    /**
     * The state part way through clearing a block found at `found`: the
     * records `cleared` (entries `gone`) have left the head of the queue
     * `p0` (entries `e0`) the block started with, in order, and are on the
     * cache in reverse above `f0`; their buckets follow `o0` in the
     * histogram; `space` is the room left; the arena size and the arrival
     * clock are still `n0` and `s0`.
     */
    ghost predicate Clearing(hist: Histogram, scale: real -> int, found: real, p0: seq<int>, f0: seq<int>, e0: seq<Entry>,
                             o0: seq<int>, n0: int, s0: real, cleared: seq<int>, gone: seq<Entry>, space: int)
      reads this, hist, hist.buckets
    {
      && Valid() && hist.Valid() && Clearable(scale, found, e0)
      && 0 <= space && |gone| == |cleared|
      && p0 == cleared + Pending && e0 == gone + Entries()
      && Free == Reversed(cleared) + f0
      && |recs| == n0 && nextTransactionSecs == s0
      && ClearCount(e0, BLOCK_SPACE) == |cleared| + ClearCount(Entries(), space)
      && hist.Observed == o0 + BucketsFor(scale, found, gone)
    }

    /**
     * One pass of the clearing loop, with the loop's bookkeeping: the head
     * fits in `space`, and `left` is the room it leaves.
     */
    method ClearNext(blockFoundTime: real, scale: real -> int, hist: Histogram, ghost space: int, ghost left: int,
                     ghost p0: seq<int>, ghost f0: seq<int>, ghost e0: seq<Entry>, ghost o0: seq<int>, ghost n0: int, ghost s0: real,
                     ghost cleared: seq<int>, ghost gone: seq<Entry>)
      returns (next: int, ghost cleared1: seq<int>, ghost gone1: seq<Entry>)
      requires Clearing(hist, scale, blockFoundTime, p0, f0, e0, o0, n0, s0, cleared, gone, space)
      requires Pending != [] && Entries()[0].size <= space && left == space - Entries()[0].size
      modifies this, hist, hist.buckets
      ensures Clearing(hist, scale, blockFoundTime, p0, f0, e0, o0, n0, s0, cleared1, gone1, left)
      ensures |cleared1| == |cleared| + 1
      ensures next == pendingHead == First(Pending) && (next == NULL <==> Pending == [])
      ensures next != NULL ==> 0 <= next < |recs| && recs[next].size == Entries()[0].size
    {
      ghost var E1, P1, e, t := Entries(), Pending, Entries()[0], pendingHead;
      ClearableAt(scale, blockFoundTime, e0, gone, E1, space, |gone|);
      next := ClearHead(blockFoundTime, scale, hist);
      ClearHeadFits(E1, space, Entries(), left);
      Shift(gone, E1);
      Shift(cleared, P1);
      ReversedPush(cleared, t, f0, Free);
      BucketsPush(scale, blockFoundTime, o0, gone, e, hist.Observed);
      gone1, cleared1 := gone + [e], cleared + [t];
    }

    /**
     * The clearing loop of `create_block`, started at the head `t` of a
     * non-empty queue with the whole block free: it runs while the head
     * fits, and ends having cleared ClearCount(e0, BLOCK_SPACE) records.
     */
    method ClearWhileFits(t: int, blockFoundTime: real, scale: real -> int, hist: Histogram,
                          ghost p0: seq<int>, ghost f0: seq<int>, ghost e0: seq<Entry>, ghost o0: seq<int>, ghost n0: int, ghost s0: real)
      returns (blocks: int, ghost cleared: seq<int>, ghost gone: seq<Entry>)
      requires Clearing(hist, scale, blockFoundTime, p0, f0, e0, o0, n0, s0, [], [], BLOCK_SPACE)
      requires Pending != [] && t == pendingHead
      modifies this, hist, hist.buckets
      ensures Clearing(hist, scale, blockFoundTime, p0, f0, e0, o0, n0, s0, cleared, gone, 0)
      ensures blocks == |cleared| == ClearCount(e0, BLOCK_SPACE)
    {
      var t := t;
      blocks := 0;
      var blockSpace := BLOCK_SPACE;
      cleared, gone := [], [];
      while blockSpace >= recs[t].size
        invariant Clearing(hist, scale, blockFoundTime, p0, f0, e0, o0, n0, s0, cleared, gone, blockSpace)
        invariant blocks == |cleared| && Pending != [] && t == pendingHead
        invariant 0 <= t < |recs| && recs[t].size == Entries()[0].size
        decreases |Pending|
      {
        ghost var space := blockSpace;
        blockSpace := blockSpace - recs[t].size;
        blocks := blocks + 1;
        var next;
        next, cleared, gone := ClearNext(blockFoundTime, scale, hist, space, blockSpace, p0, f0, e0, o0, n0, s0, cleared, gone);
        if next == NULL {
          break;
        }
        t := next;
      }
      ClearNone(Entries(), blockSpace);
    }

    /**
     * Clear the block found at `blockFoundTime`: while the head fits in the
     * remaining space, bucket its age into `hist` and move it onto the cache.
     * Returns the number cleared.
     */
    method CreateBlock(blockFoundTime: real, scale: real -> int, hist: Histogram) returns (blocks: int)
      requires Valid() && hist.Valid()
      requires Clearable(scale, blockFoundTime, Entries())
      modifies this, hist, hist.buckets
      ensures Valid() && hist.Valid()
      ensures blocks == ClearCount(old(Entries()), BLOCK_SPACE)
      ensures blocks <= MAX_PER_BLOCK
      ensures Pending == old(Pending)[blocks..]
      ensures Entries() == old(Entries())[blocks..]
      ensures Free == Reversed(old(Pending)[..blocks]) + old(Free)
      ensures pendingTail == if blocks == |old(Pending)| then NULL else old(pendingTail)
      ensures old(Pending) == [] ==> recs == old(recs)
      ensures |recs| == old(|recs|) && nextTransactionSecs == old(nextTransactionSecs)
      ensures hist.Observed == old(hist.Observed) + BucketsFor(scale, blockFoundTime, old(Entries())[..blocks])
    {
      ghost var P0, F0, E0, O0 := Pending, Free, Entries(), hist.Observed;
      BlockCapacity(E0);
      var t := pendingHead;
      if t == NULL {
        return 0;
      }
      ghost var cleared, gone;
      blocks, cleared, gone := ClearWhileFits(t, blockFoundTime, scale, hist, P0, F0, E0, O0, |recs|, nextTransactionSecs);
      LastOfSuffix(cleared, Pending);
      assert P0[blocks..] == Pending && P0[..blocks] == cleared && E0[..blocks] == gone && E0[blocks..] == Entries();
    }

    /** End of a run: the pending records are discarded and the arrival clock restarts at 0; the cache is kept. */
    method EndRun()
      requires Valid()
      modifies this
      ensures Valid()
      ensures Pending == [] && Free == old(Free) && recs == old(recs)
      ensures nextTransactionSecs == 0.0
    {
      pendingHead := NULL;
      pendingTail := NULL;
      nextTransactionSecs := 0.0;
      Pending := [];
    }
  }
}
