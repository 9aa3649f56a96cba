/**
 * The mining loop and the simulation driver. A block is found after a
 * sampled interval; the arrivals up to that moment join the queue, and the
 * block then clears the head of the queue. The value-level reference `Run`
 * states what a sequence of blocks does; `Mine` is proved to follow it, and
 * `Sim` runs `Mine` once per run over a histogram that is never reset.
 */
module Simulation {
  import opened Records
  import opened Bucketing
  import opened Arrivals
  import opened Clearing
  import opened TxnPool

  /** The random draws of one block: the interval until the block is found, then the arrival gaps sampled after it. */
  datatype BlockDraws = BlockDraws(blockGap: real, arrivalGaps: seq<real>)

  /** What the block loop carries: the pending queue, the next arrival time and the cumulative run time. */
  datatype RunState = RunState(queue: seq<Entry>, clock: real, time: real)

  /** The state at the start of every run: nothing pending, both clocks at 0. */
  const Fresh: RunState := RunState([], 0.0, 0.0)

  /** The time at which the block drawn by `d` is found. */
  function FoundAt(s: RunState, d: BlockDraws): real
  {
    s.time + d.blockGap
  }

  /** The queue once the arrivals up to the block time have joined it. */
  function Grown(s: RunState, d: BlockDraws): seq<Entry>
  {
    s.queue + Admitted(s.clock, FoundAt(s, d), d.arrivalGaps)
  }

  /** The records the block clears: the head of the grown queue that fits in BLOCK_SPACE. */
  function Cleared(s: RunState, d: BlockDraws): seq<Entry>
  {
    Grown(s, d)[..ClearCount(Grown(s, d), BLOCK_SPACE)]
  }

  /** One block: arrivals up to the block time, then clearing; the cumulative time moves to the block time. */
  function Step(s: RunState, d: BlockDraws): RunState
  {
    var q := Grown(s, d);
    RunState(q[ClearCount(q, BLOCK_SPACE)..], ClockAfter(s.clock, FoundAt(s, d), d.arrivalGaps), FoundAt(s, d))
  }

  /**
   * A block splits the grown queue into the records it clears and those it
   * leaves, in order; the cleared ones fit in BLOCK_SPACE, and when any
   * record is left, the first one left does not fit in the space remaining.
   */
  lemma StepSplits(s: RunState, d: BlockDraws)
    ensures Grown(s, d) == Cleared(s, d) + Step(s, d).queue
    ensures SizeSum(Cleared(s, d)) <= BLOCK_SPACE
    ensures |Cleared(s, d)| < |Grown(s, d)| ==> BLOCK_SPACE - SizeSum(Cleared(s, d)) < Grown(s, d)[|Cleared(s, d)|].size
  {
    var q := Grown(s, d);
    var n := ClearCount(q, BLOCK_SPACE);
    assert q == q[..n] + q[n..];
  }

  /** The state after the blocks drawn by `draws`, one after another. */
  function Run(s: RunState, draws: seq<BlockDraws>): RunState
    decreases |draws|
  {
    if draws == [] then s else Run(Step(s, draws[0]), draws[1..])
  }

  /** Every record that arrives during the blocks, in arrival order. */
  function Arrived(s: RunState, draws: seq<BlockDraws>): seq<Entry>
    decreases |draws|
  {
    if draws == [] then []
    else Admitted(s.clock, FoundAt(s, draws[0]), draws[0].arrivalGaps) + Arrived(Step(s, draws[0]), draws[1..])
  }

  /** Every record that a block clears, in clearing order. */
  function Departed(s: RunState, draws: seq<BlockDraws>): seq<Entry>
    decreases |draws|
  {
    if draws == [] then [] else Cleared(s, draws[0]) + Departed(Step(s, draws[0]), draws[1..])
  }

  /** The histogram bucket of every cleared record, each aged at the time of the block that clears it. */
  function Observations(s: RunState, draws: seq<BlockDraws>, scale: real -> int): seq<int>
    decreases |draws|
  {
    if draws == [] then []
    else BucketsFor(scale, FoundAt(s, draws[0]), Cleared(s, draws[0])) + Observations(Step(s, draws[0]), draws[1..], scale)
  }

  /** Sum of the block intervals. */
  function BlockTime(draws: seq<BlockDraws>): real
    decreases |draws|
  {
    if draws == [] then 0.0 else draws[0].blockGap + BlockTime(draws[1..])
  }

  /**
   * The draws of every block are usable: each block's arrival gaps carry the
   * clock past the block time, and each record the block clears has an age
   * that the histogram can record.
   */
  ghost predicate Feasible(s: RunState, draws: seq<BlockDraws>, scale: real -> int)
    decreases |draws|
  {
    draws != [] ==>
      && Sufficient(s.clock, FoundAt(s, draws[0]), draws[0].arrivalGaps)
      && Clearable(scale, FoundAt(s, draws[0]), Grown(s, draws[0]))
      && Feasible(Step(s, draws[0]), draws[1..], scale)
  }

  /** All arrival gaps of all blocks are non-negative. */
  ghost predicate GapsNonNegative(draws: seq<BlockDraws>)
  {
    forall i :: 0 <= i < |draws| ==> NonNegative(draws[i].arrivalGaps)
  }

  /** Every entry arrived no earlier than `t`. */
  ghost predicate NotBefore(es: seq<Entry>, t: real)
  {
    forall i :: 0 <= i < |es| ==> t <= es[i].time
  }

  /** Two splits chained: if q + a is c + m and m + a1 is d1 + q1, then q + (a + a1) is (c + d1) + q1. */
  lemma Regroup<T>(q: seq<T>, a: seq<T>, a1: seq<T>, c: seq<T>, m: seq<T>, d1: seq<T>, q1: seq<T>)
    requires q + a == c + m && m + a1 == d1 + q1
    ensures q + (a + a1) == (c + d1) + q1
  {
    calc {
      q + (a + a1);
      (q + a) + a1;
      (c + m) + a1;
      c + (m + a1);
      c + (d1 + q1);
      (c + d1) + q1;
    }
  }

  /**
   * Every run starts with an arrival at time 0: the arrival clock starts at
   * 0 and a record is stamped before any gap is added, so the first block
   * of a run admits a record at time 0 whatever the gaps are.
   */
  lemma FirstArrivalAtZero(d: BlockDraws)
    requires 0.0 <= d.blockGap && d.arrivalGaps != []
    ensures Grown(Fresh, d) != [] && Grown(Fresh, d)[0] == Entry(TXN_SIZE, 0.0)
  {
  }

  /** Concatenation is associative. */
  lemma Associative<T>(a: seq<T>, b: seq<T>, c: seq<T>)
    ensures a + (b + c) == (a + b) + c
  {
  }

  /** Queue discipline over a run: what was queued plus what arrived equals what departed, in order, plus what is left. */
  lemma {:induction false} RunIsFifo(s: RunState, draws: seq<BlockDraws>)
    ensures s.queue + Arrived(s, draws) == Departed(s, draws) + Run(s, draws).queue
    decreases |draws|
  {
    if draws != [] {
      var d := draws[0];
      var s1 := Step(s, d);
      var a := Admitted(s.clock, FoundAt(s, d), d.arrivalGaps);
      var c := Cleared(s, d);
      var a1 := Arrived(s1, draws[1..]);
      var d1 := Departed(s1, draws[1..]);
      var q1 := Run(s1, draws[1..]).queue;
      RunIsFifo(s1, draws[1..]);
      StepSplits(s, d);
      assert Arrived(s, draws) == a + a1 && Departed(s, draws) == c + d1 && Run(s, draws).queue == q1;
      Regroup(s.queue, a, a1, c, s1.queue, d1, q1);
    }
  }

  /** The histogram gets exactly one observation per cleared record. */
  lemma {:induction false} ObservationsCount(s: RunState, draws: seq<BlockDraws>, scale: real -> int)
    ensures |Observations(s, draws, scale)| == |Departed(s, draws)|
    decreases |draws|
  {
    if draws != [] {
      ObservationsCount(Step(s, draws[0]), draws[1..], scale);
    }
  }

  /** The cumulative run time is the start time plus the block intervals drawn. */
  lemma {:induction false} RunTime(s: RunState, draws: seq<BlockDraws>)
    ensures Run(s, draws).time == s.time + BlockTime(draws)
    decreases |draws|
  {
    if draws != [] {
      RunTime(Step(s, draws[0]), draws[1..]);
    }
  }

  /**
   * Capacity of one block: with fixed-size records it clears the whole grown
   * queue when that holds at most MAX_PER_BLOCK records, and exactly
   * MAX_PER_BLOCK otherwise; the records left behind are fixed-size too.
   */
  lemma StepCapacity(s: RunState, d: BlockDraws)
    requires FixedSize(s.queue)
    ensures |Cleared(s, d)| == Min(|Grown(s, d)|, MAX_PER_BLOCK)
    ensures FixedSize(Step(s, d).queue)
  {
    var q := Grown(s, d);
    assert FixedSize(q);
    BlockCapacity(q);
  }

  /**
   * Over a run of fixed-size records, the block drawn by `draws[i]` clears
   * at most MAX_PER_BLOCK records, so a run of n blocks clears at most
   * n * MAX_PER_BLOCK; the queue stays fixed-size.
   */
  lemma {:induction false} RunCapacity(s: RunState, draws: seq<BlockDraws>)
    requires FixedSize(s.queue)
    ensures forall i :: 0 <= i < |draws| ==> |Cleared(Run(s, draws[..i]), draws[i])| <= MAX_PER_BLOCK
    ensures |Departed(s, draws)| <= MAX_PER_BLOCK * |draws|
    ensures FixedSize(Run(s, draws).queue)
    decreases |draws|
  {
    if draws != [] {
      StepCapacity(s, draws[0]);
      RunCapacity(Step(s, draws[0]), draws[1..]);
      forall i | 0 <= i < |draws|
        ensures |Cleared(Run(s, draws[..i]), draws[i])| <= MAX_PER_BLOCK
      {
        RunCapacity(s, draws[..i]);
        StepCapacity(Run(s, draws[..i]), draws[i]);
      }
    }
  }

  /** Two ordered runs of entries, the first no later and the second no earlier than `t`, join into an ordered one. */
  lemma OrderedJoin(a: seq<Entry>, b: seq<Entry>, t: real)
    requires Ordered(a) && Ordered(b) && NotAfter(a, t) && NotBefore(b, t)
    ensures Ordered(a + b)
  {
    var ab := a + b;
    forall i, j | 0 <= i < j < |ab|
      ensures ab[i].time <= ab[j].time
    {
      if j < |a| {
        assert ab[i] == a[i] && ab[j] == a[j];
      } else if i < |a| {
        assert ab[i] == a[i] && ab[j] == b[j - |a|];
      } else {
        assert ab[i] == b[i - |a|] && ab[j] == b[j - |a|];
      }
    }
  }

  /**
   * Arrival order within one block: the grown queue is ordered, and nothing
   * in it arrived after the new clock, which has not moved back.
   */
  lemma StepOrder(s: RunState, d: BlockDraws)
    requires Ordered(s.queue) && NotAfter(s.queue, s.clock) && NonNegative(d.arrivalGaps)
    ensures Ordered(Grown(s, d)) && NotAfter(Grown(s, d), Step(s, d).clock)
    ensures NotBefore(Admitted(s.clock, FoundAt(s, d), d.arrivalGaps), s.clock)
    ensures s.clock <= Step(s, d).clock
  {
    var a := Admitted(s.clock, FoundAt(s, d), d.arrivalGaps);
    var c := Step(s, d).clock;
    AdmittedInOrder(s.clock, FoundAt(s, d), d.arrivalGaps);
    OrderedJoin(s.queue, a, s.clock);
    var q := Grown(s, d);
    forall i | 0 <= i < |q|
      ensures q[i].time <= c
    {
      if i < |s.queue| {
        assert q[i] == s.queue[i];
      } else {
        assert q[i] == a[i - |s.queue|];
      }
    }
  }

  /**
   * Over a run with non-negative gaps, every record that arrives is no
   * earlier than the starting clock, the arrivals are in order, and the
   * clock never moves back.
   */
  lemma {:induction false} ArrivedInOrder(s: RunState, draws: seq<BlockDraws>)
    requires Ordered(s.queue) && NotAfter(s.queue, s.clock) && GapsNonNegative(draws)
    ensures Ordered(Arrived(s, draws)) && NotBefore(Arrived(s, draws), s.clock)
    ensures Ordered(Run(s, draws).queue) && NotAfter(Run(s, draws).queue, Run(s, draws).clock)
    ensures s.clock <= Run(s, draws).clock
    decreases |draws|
  {
    if draws != [] {
      var d := draws[0];
      var s1 := Step(s, d);
      var a := Admitted(s.clock, FoundAt(s, d), d.arrivalGaps);
      var rest := Arrived(s1, draws[1..]);
      assert NonNegative(d.arrivalGaps);
      StepOrder(s, d);
      assert s1.queue == Grown(s, d)[|Cleared(s, d)|..];
      assert Ordered(s1.queue) && NotAfter(s1.queue, s1.clock);
      assert GapsNonNegative(draws[1..]) by {
        forall i | 0 <= i < |draws[1..]|
          ensures NonNegative(draws[1..][i].arrivalGaps)
        {
          assert draws[1..][i] == draws[i + 1];
        }
      }
      ArrivedInOrder(s1, draws[1..]);
      AdmittedInOrder(s.clock, FoundAt(s, d), d.arrivalGaps);
      OrderedJoin(a, rest, s1.clock);
      var all := a + rest;
      forall i | 0 <= i < |all|
        ensures s.clock <= all[i].time
      {
        if i < |a| {
          assert all[i] == a[i];
        } else {
          assert all[i] == rest[i - |a|];
        }
      }
    }
  }

  /**
   * Blocks clear records in arrival order: over a run with non-negative
   * gaps, starting from an ordered queue, the records departed followed by
   * those still queued are ordered by arrival time.
   */
  lemma DepartInArrivalOrder(s: RunState, draws: seq<BlockDraws>)
    requires Ordered(s.queue) && NotAfter(s.queue, s.clock) && GapsNonNegative(draws)
    ensures Ordered(Departed(s, draws) + Run(s, draws).queue)
  {
    ArrivedInOrder(s, draws);
    OrderedJoin(s.queue, Arrived(s, draws), s.clock);
    RunIsFifo(s, draws);
  }

  /** The first block of `draws[i..]` taken from `s` leads to `s1`, and every run-level function unfolds by that block. */
  lemma StepOn(s: RunState, s1: RunState, draws: seq<BlockDraws>, i: int, scale: real -> int)
    requires 0 <= i < |draws| && s1 == Step(s, draws[i])
    requires Feasible(s, draws[i..], scale)
    ensures Sufficient(s.clock, FoundAt(s, draws[i]), draws[i].arrivalGaps)
    ensures Clearable(scale, FoundAt(s, draws[i]), Grown(s, draws[i]))
    ensures Feasible(s1, draws[i + 1..], scale)
    ensures Run(s, draws[i..]) == Run(s1, draws[i + 1..])
    ensures Departed(s, draws[i..]) == Cleared(s, draws[i]) + Departed(s1, draws[i + 1..])
    ensures Observations(s, draws[i..], scale)
         == BucketsFor(scale, FoundAt(s, draws[i]), Cleared(s, draws[i])) + Observations(s1, draws[i + 1..], scale)
  {
    assert draws[i..][0] == draws[i] && draws[i..][1..] == draws[i + 1..];
  }

  /** The pool and the cumulative time, seen as a run state. */
  ghost function StateOf(pool: Pool, time: real): RunState
    reads pool
    requires pool.Valid()
  {
    RunState(pool.Entries(), pool.nextTransactionSecs, time)
  }

  /**
   * The mining loop after `i` of the blocks drawn by `draws`, started from
   * `s0` with the histogram at `o0`, now at `s` with the histogram at
   * `observed`: what is left to run from `s` ends where the whole run ends,
   * and the handled count and the histogram hold what the first `i` blocks
   * contributed.
   */
  ghost predicate OnTrack(scale: real -> int, draws: seq<BlockDraws>, i: int, s0: RunState, o0: seq<int>,
                          s: RunState, observed: seq<int>, handled: int)
  {
    && 0 <= i <= |draws|
    && Feasible(s, draws[i..], scale)
    && Run(s, draws[i..]) == Run(s0, draws)
    && handled + |Departed(s, draws[i..])| == |Departed(s0, draws)|
    && observed + Observations(s, draws[i..], scale) == o0 + Observations(s0, draws, scale)
  }

  /**
   * A block that leaves the queue, the clock and the cumulative time as the
   * reference step does, adds its cleared count to the handled count and
   * records one observation per cleared record keeps the loop on track.
   */
  lemma OnTrackStep(scale: real -> int, draws: seq<BlockDraws>, i: int, s0: RunState, o0: seq<int>,
                    s: RunState, observed: seq<int>, handled: int, s1: RunState, h: int, observed1: seq<int>)
    requires OnTrack(scale, draws, i, s0, o0, s, observed, handled) && i < |draws|
    requires s1 == Step(s, draws[i]) && h == |Cleared(s, draws[i])|
    requires observed1 == observed + BucketsFor(scale, FoundAt(s, draws[i]), Cleared(s, draws[i]))
    ensures OnTrack(scale, draws, i + 1, s0, o0, s1, observed1, handled + h)
  {
    StepOn(s, s1, draws, i, scale);
    var b := BucketsFor(scale, FoundAt(s, draws[i]), Cleared(s, draws[i]));
    var later := Observations(s1, draws[i + 1..], scale);
    Associative(observed, b, later);
  }

  /**
   * One pass of the `mine` loop: the block drawn by `d` is found `d.blockGap`
   * after `time`, the arrivals up to then join the queue, and the block
   * clears the head of the queue. The pool moves as the reference step
   * does, `h` counts the records cleared, and each of them is recorded at
   * its age.
   */
  method MineBlock(scale: real -> int, d: BlockDraws, pool: Pool, hist: Histogram, time: real, ghost s: RunState)
    returns (time1: real, h: int)
    requires pool.Valid() && hist.Valid() && s == StateOf(pool, time)
    requires Sufficient(s.clock, FoundAt(s, d), d.arrivalGaps) && Clearable(scale, FoundAt(s, d), Grown(s, d))
    modifies pool, hist, hist.buckets
    ensures pool.Valid() && hist.Valid()
    ensures StateOf(pool, time1) == Step(s, d)
    ensures h == |Cleared(s, d)|
    ensures hist.Observed == old(hist.Observed) + BucketsFor(scale, time1, Cleared(s, d))
  {
    time1 := time + d.blockGap;
    ghost var grown := Grown(s, d);
    assert time1 == FoundAt(s, d) && Clearable(scale, time1, grown);
    var arrived := pool.SimTransactions(time1, d.arrivalGaps);
    assert pool.Entries() == grown;
    h := pool.CreateBlock(time1, scale, hist);
  }

  /**
   * `mine`: simulate the blocks drawn by `draws`, starting at cumulative
   * time `startTime`. The pool, the returned cumulative time and the
   * histogram end as the reference run says, and the handled count is the
   * number of records the blocks cleared.
   */
  method Mine(scale: real -> int, draws: seq<BlockDraws>, pool: Pool, hist: Histogram, startTime: real)
    returns (cumulativeTime: real, transactionsHandled: int)
    requires pool.Valid() && hist.Valid()
    requires Feasible(StateOf(pool, startTime), draws, scale)
    modifies pool, hist, hist.buckets
    ensures pool.Valid() && hist.Valid()
    ensures StateOf(pool, cumulativeTime) == Run(old(StateOf(pool, startTime)), draws)
    ensures transactionsHandled == |Departed(old(StateOf(pool, startTime)), draws)|
    ensures hist.Observed == old(hist.Observed) + Observations(old(StateOf(pool, startTime)), draws, scale)
  {
    ghost var s0 := StateOf(pool, startTime);
    ghost var o0 := hist.Observed;
    cumulativeTime := startTime;
    transactionsHandled := 0;
    var i := 0;
    while i < |draws|
      invariant pool.Valid() && hist.Valid()
      invariant OnTrack(scale, draws, i, s0, o0, StateOf(pool, cumulativeTime), hist.Observed, transactionsHandled)
      decreases |draws| - i
    {
      ghost var s := StateOf(pool, cumulativeTime);
      ghost var observed := hist.Observed;
      StepOn(s, Step(s, draws[i]), draws, i, scale);
      var h;
      cumulativeTime, h := MineBlock(scale, draws[i], pool, hist, cumulativeTime, s);
      OnTrackStep(scale, draws, i, s0, o0, s, observed, transactionsHandled, StateOf(pool, cumulativeTime), h, hist.Observed);
      transactionsHandled := transactionsHandled + h;
      i := i + 1;
    }
    assert draws[i..] == [];
  }

  /** The histogram observations of every run, run after run, each run started from the fresh state. */
  function AllObservations(runs: seq<seq<BlockDraws>>, scale: real -> int): seq<int>
    decreases |runs|
  {
    if runs == [] then []
    else AllObservations(runs[..|runs| - 1], scale) + Observations(Fresh, runs[|runs| - 1], scale)
  }

  /** The records cleared over all runs. */
  function TotalHandled(runs: seq<seq<BlockDraws>>): int
    decreases |runs|
  {
    if runs == [] then 0 else TotalHandled(runs[..|runs| - 1]) + |Departed(Fresh, runs[|runs| - 1])|
  }

  /** Over all runs, the histogram gets one observation per cleared record. */
  lemma {:induction false} AllObservationsCount(runs: seq<seq<BlockDraws>>, scale: real -> int)
    ensures |AllObservations(runs, scale)| == TotalHandled(runs)
    decreases |runs|
  {
    if runs != [] {
      AllObservationsCount(runs[..|runs| - 1], scale);
      ObservationsCount(Fresh, runs[|runs| - 1], scale);
    }
  }

  /** The histogram after run `j` holds the observations of the runs before it and then those of run `j`. */
  lemma AllObservationsSnoc(scale: real -> int, runs: seq<seq<BlockDraws>>, j: int, o0: seq<int>, before: seq<int>, after: seq<int>)
    requires 0 <= j < |runs|
    requires before == o0 + AllObservations(runs[..j], scale)
    requires after == before + Observations(Fresh, runs[j], scale)
    ensures after == o0 + AllObservations(runs[..j + 1], scale)
  {
    var prefix, next := runs[..j + 1][..j], runs[..j + 1][j];
    assert prefix == runs[..j] && next == runs[j];
    var earlier, latest := AllObservations(prefix, scale), Observations(Fresh, next, scale);
    assert AllObservations(runs[..j + 1], scale) == earlier + latest;
    Associative(o0, earlier, latest);
  }

  /** Between runs: the queue is empty, the arrival clock is at 0, and the histogram holds the first `j` runs. */
  ghost predicate Between(pool: Pool, hist: Histogram, scale: real -> int, runs: seq<seq<BlockDraws>>, j: int, o0: seq<int>)
    reads pool, hist, hist.buckets
  {
    && pool.Valid() && hist.Valid() && pool.Pending == [] && pool.nextTransactionSecs == 0.0
    && 0 <= j <= |runs|
    && hist.Observed == o0 + AllObservations(runs[..j], scale)
  }

  /** One pass of the run loop: `mine` the blocks of run `j` from time 0, then discard what is still pending. */
  method SimRun(scale: real -> int, runs: seq<seq<BlockDraws>>, j: int, pool: Pool, hist: Histogram, ghost o0: seq<int>)
    requires Between(pool, hist, scale, runs, j, o0) && j < |runs|
    requires Feasible(Fresh, runs[j], scale)
    modifies pool, hist, hist.buckets
    ensures Between(pool, hist, scale, runs, j + 1, o0)
  {
    ghost var before := hist.Observed;
    assert pool.Entries() == [];
    assert StateOf(pool, 0.0) == Fresh;
    var cumulativeTime, transactionsHandled := Mine(scale, runs[j], pool, hist, 0.0);
    pool.EndRun();
    AllObservationsSnoc(scale, runs, j, o0, before, hist.Observed);
  }

  /** The run loop of `sim`: every run in turn, from an empty queue, over the one histogram. */
  method SimRuns(scale: real -> int, runs: seq<seq<BlockDraws>>, pool: Pool, hist: Histogram)
    requires Between(pool, hist, scale, runs, 0, hist.Observed)
    requires forall j :: 0 <= j < |runs| ==> Feasible(Fresh, runs[j], scale)
    modifies pool, hist, hist.buckets
    ensures Between(pool, hist, scale, runs, |runs|, old(hist.Observed))
  {
    ghost var o0 := hist.Observed;
    var j := 0;
    while j < |runs|
      invariant Between(pool, hist, scale, runs, j, o0)
      decreases |runs| - j
    {
      SimRun(scale, runs, j, pool, hist, o0);
      j := j + 1;
    }
  }

  /**
   * `sim`: one `mine` per run, each from cumulative time 0 with an empty
   * queue and the arrival clock at 0, then the report walk. The histogram is
   * never reset, so it ends holding the observations of every run.
   */
  method Sim(scale: real -> int, runs: seq<seq<BlockDraws>>, pool: Pool, hist: Histogram) returns (rows: seq<Row>)
    requires pool.Valid() && hist.Valid() && pool.Pending == [] && pool.nextTransactionSecs == 0.0
    requires forall j :: 0 <= j < |runs| ==> Feasible(Fresh, runs[j], scale)
    modifies pool, hist, hist.buckets
    ensures pool.Valid() && hist.Valid() && pool.Pending == [] && pool.nextTransactionSecs == 0.0
    ensures hist.Observed == old(hist.Observed) + AllObservations(runs, scale)
    ensures hist.numResults == old(hist.numResults) + TotalHandled(runs)
    ensures rows == [] <==> hist.numResults == 0
    ensures Walk(rows, hist.buckets[..], hist.smallestBucket)
    ensures rows != [] ==> rows[|rows| - 1].cumulative == hist.numResults
    ensures hist.numResults != 0 ==> |rows| == hist.largestBucket - hist.smallestBucket + 1
  {
    ghost var o0 := hist.Observed;
    SimRuns(scale, runs, pool, hist);
    assert runs[..|runs|] == runs;
    AllObservationsCount(runs, scale);
    assert hist.numResults == |o0| + TotalHandled(runs);
    rows := hist.OutputResults();
  }

  /**
   * The program from its start: the globals at their initial values (an
   * empty queue, an empty cache, a zeroed histogram), then `sim`. The report
   * is empty exactly when no run cleared a record, and its running count
   * ends at the number of records cleared over all runs.
   */
  method SimFromStart(scale: real -> int, runs: seq<seq<BlockDraws>>) returns (rows: seq<Row>)
    requires forall j :: 0 <= j < |runs| ==> Feasible(Fresh, runs[j], scale)
    ensures rows == [] <==> TotalHandled(runs) == 0
    ensures rows != [] ==> rows[|rows| - 1].cumulative == TotalHandled(runs)
  {
    var pool := new Pool();
    var hist := new Histogram();
    rows := Sim(scale, runs, pool, hist);
  }
}
