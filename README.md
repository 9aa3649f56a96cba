# btb: a verified model of the transaction-queue simulator

`btb.c` is a Monte Carlo simulator of a Bitcoin-style transaction pool.
- Blocks are found after exponentially distributed intervals.
- Transactions arrive as a Poisson process and queue in arrival order.
- Each block clears the head of the queue while the head still fits in one MiB.
- Each cleared transaction's confirmation age goes into a log-scaled histogram. That histogram is kept across all simulation runs.

This project models that core in Dafny and proves what it does. It has six modules, one per file:

- `Records` (`records.dfy`): the size constants and the `Entry(size, time)` view of a pending transaction.
- `Bucketing` (`bucketing.dfy`):
  - the bucket transform `BucketIndex`;
  - the process-wide `Histogram` class (the `buckets` array, `smallest_bucket`, `largest_bucket` and `num_results`);
  - its `Record` step;
  - `OutputResults`, the report walk of `output_results`.
- `Arrivals` (`arrivals.dfy`): the value-level meaning of the arrival loop of `sim_transactions`.
- `Clearing` (`clearing.dfy`): the greedy clearing rule of `create_block` (`ClearCount`) and the capacity bound.
- `TxnPool` (`pool.dfy`): the pending queue and the reuse cache.
  - Class `Pool` has `recs: seq<Txn>` as an arena: a record number acts as a pointer, and `NULL` (-1) as the null pointer.
  - `next`/`prev` links and `pendingHead`/`pendingTail`/`cacheHead` are updated in place, as in C.
  - The ghost lists `Pending` and `Free` name the records of each list. `Wellformed` ties them to the links.
  - `SimTransactions` and `CreateBlock` are the loops of `sim_transactions` and `create_block`. `EndRun` is the end-of-run reset of `sim`.
- `Simulation` (`simulation.dfy`):
  - the reference `Run` of a sequence of blocks;
  - `Mine` (the `mine` loop), proved to follow `Run`;
  - `SimRuns` (the loop over runs of `sim`);
  - `Sim`, which calls `SimRuns` and then `OutputResults`.

The random source is replaced by values the caller supplies.
- C reseeds `rand` once per block. The first draw after the reseed is the block interval, and the following draws are the arrival gaps.
- The model therefore takes one `BlockDraws(blockGap, arrivalGaps)` per block.
- `ceil(1000 * log10(age))` is a parameter `scale: real -> int`, because floating-point `log10` is not modelled.

Two behaviours of `btb.c` shape the preconditions and the reset:
- `btb.c` guards neither a zero age (`log10` at `btb.c:160`) nor an index past the last bucket (`buckets[b]` at `btb.c:167`). It only clamps a negative index to 0 (`btb.c:164-166`).
- So the model requires both for the records a block clears: `Recordable`, bundled per block in `Clearable` and per run in `Feasible`.
- `next_transaction_secs` starts every run at 0 (`btb.c:59`, `btb.c:308`), and a record is stamped before any gap is drawn (`btb.c:94-114`). So every run admits one record at time 0, whatever the arrival rate. `FirstArrivalAtZero` states this.
- The end-of-run drain frees the pending records (`btb.c:299-304`) rather than caching them, so `EndRun` leaves the cache as it was.

## Model

| member | source | states |
|---|---|---|
| Bucketing.BucketIndex | btb.c:159-166 | the bucket is never negative, is at least the scaled age shifted by one decade of buckets, and is either 0 or exactly that shifted value |
| Bucketing.BucketMonotone | btb.c:159-166 | with a monotone scale, an older record never falls in a lower bucket |
| Bucketing.TallyTotal | btb.c:167 | the per-bucket counts of a list of in-range observations add up to the number of observations |
| Bucketing.TallyWindow | btb.c:255 | when every observation lies between the smallest and the largest observed bucket, the counts in that window add up to all observations |
| Bucketing.Histogram.constructor | btb.c:48-51 | a fresh counts array, all counts 0, smallest bucket NUM_BUCKETS, largest 0, no results, nothing observed |
| Bucketing.BucketsSumToResults | btb.c:167-177 | in a valid histogram the bucket counts add up to num_results |
| Bucketing.Histogram.Record | btb.c:167-177 | recording bucket b appends b to the observations and keeps the invariant: counts equal the tally of the observations, the extents are their minimum and maximum, and num_results is their number |
| Bucketing.Histogram.OutputResults | btb.c:250-262 | the walk yields one line per bucket from smallest to largest, each with its count and the running count; no lines exactly when there are no results; the last running count is num_results |
| Arrivals.Admitted | btb.c:94-96 | records are admitted only while the clock is no later than the block time; each has the fixed size and none is later than the block time; there are at most as many as gaps |
| Arrivals.AdmitStep | btb.c:112-132 | one admission adds a record stamped with the current clock and moves the clock by one gap |
| Arrivals.ClockPassesBlockEnd | btb.c:94-96 | when the generator returns, the next arrival lies strictly after the block time |
| Arrivals.AdmittedArePartialSums | btb.c:112-132 | the k-th admitted record is stamped with the start clock plus the first k gaps, and the clock ends at the start plus one gap per admission |
| Arrivals.AdmittedInOrder | btb.c:112-132 | with non-negative gaps the admitted records are in non-decreasing time order, none before the start clock and none after the final clock |
| Clearing.ClearCount | btb.c:150-154 | the cleared head fits in the space, and the first record left behind does not fit in the space that remains |
| Clearing.ClearCountFixedSize | btb.c:150-154 | with fixed-size records a block clears as many as fit, up to the queue length |
| Clearing.BlockCapacity | btb.c:150-154 | one block clears min(queue length, 2101) fixed-size records, and their sizes add up to at most 1 MiB |
| TxnPool.HeadNullIffTailNull | btb.c:116-124 | the queue head is NULL exactly when the tail is, and exactly when no record is pending |
| TxnPool.AllocationStep | btb.c:101-110 | one more allocation takes the cache head if the cache is non-empty, otherwise the next fresh record |
| TxnPool.DistinctWithin | btb.c:101-110 | counting helper behind `InUseWithinAllocated`: a list of distinct record numbers below n has at most n records |
| TxnPool.PendingNotCached | btb.c:101-124 | under the queue invariant no record is pending twice, none is cached twice, and no record is both pending and cached |
| TxnPool.InUseWithinAllocated | btb.c:101-110 | records in use, pending or cached, never outnumber the records ever allocated |
| TxnPool.TakeKeepsWellformed | btb.c:101-103 | taking the cache head keeps the invariant, and that record was on neither list afterwards |
| TxnPool.GrowKeepsWellformed | btb.c:105 | a fresh record at the end of the arena keeps the invariant and is on neither list |
| TxnPool.AppendKeepsShape | btb.c:116-124 | the appended record gets the next queue place; the lists stay in range and numbered |
| TxnPool.AppendKeepsLinks | btb.c:116-124 | after linking behind the tail, next and prev links follow the grown queue |
| TxnPool.AppendKeepsWellformed | btb.c:112-124 | appending a record that is on neither list keeps the invariant and adds exactly its entry at the end |
| TxnPool.PopKeepsShape | btb.c:179-187 | moving the head onto the cache keeps the lists in range and numbered |
| TxnPool.PopKeepsLinks | btb.c:184-192 | after the pop, the links follow the shorter queue and the longer cache |
| TxnPool.PopKeepsWellformed | btb.c:179-194 | the pop keeps the invariant, moves the head onto the cache front, and drops the first entry |
| TxnPool.Pool.constructor | btb.c:56-64 | both lists empty, no records, next arrival at time 0 |
| TxnPool.Pool.Allocate | btb.c:101-110 | the cache head is reused when there is one, else a fresh record; the queue and its entries are unchanged |
| TxnPool.Pool.Append | btb.c:112-124 | the record joins the queue tail with the fixed size and the given time; the cache and the clock are unchanged |
| TxnPool.Pool.Admit | btb.c:101-132 | one loop pass: one entry stamped with the clock joins the tail, the clock moves by the gap, and the allocation comes from the cache first |
| TxnPool.Pool.AdmitNext | btb.c:94-132 | one pass keeps the generator's loop state: the admitted records, the clock, the queue, the cache and the arena all agree with the reference after one more admission |
| TxnPool.Pool.SimTransactions | btb.c:85-134 | returns the number admitted; the queue grows by exactly the reference admissions; the clock ends at the reference clock, past the block time; the records come from the cache front, then fresh ones |
| TxnPool.Pool.PopHead | btb.c:179-196 | the head moves onto the cache front; the new head's prev is NULL; the tail is cleared exactly when the queue empties |
| TxnPool.Pool.ClearHead | btb.c:159-196 | the head's age bucket is recorded, and the head moves from the queue onto the cache |
| TxnPool.Pool.ClearNext | btb.c:152-196 | one pass of the clearing loop keeps the clearing state: cleared records reversed on the cache, entries removed from the queue front, one bucket per cleared entry, and the count still to clear matching the space left |
| TxnPool.Pool.ClearWhileFits | btb.c:150-197 | the clearing loop removes exactly ClearCount of the block's queue |
| TxnPool.Pool.CreateBlock | btb.c:140-200 | an empty queue gives 0 and leaves the arena unchanged; otherwise the FIFO prefix of ClearCount records, at most 2101, is removed, reversed onto the cache and recorded at its ages; the tail is cleared only when the queue empties |
| TxnPool.Pool.EndRun | btb.c:299-309 | after a run the queue is empty and the clock is 0; the cache and the arena are kept |
| Simulation.FirstArrivalAtZero | btb.c:94-114 | the first block of every run admits a record stamped at time 0, whatever the arrival gaps |
| Simulation.StepSplits | btb.c:235-238 | a block splits the grown queue into the cleared head and the rest, in order; the cleared head fits in 1 MiB and the first record left does not fit in what remains |
| Simulation.RunIsFifo | btb.c:210-241 | over a run, the initial queue plus all arrivals equals all departures, in order, plus what is left queued |
| Simulation.ObservationsCount | btb.c:167-177 | the histogram gets exactly one observation per cleared record |
| Simulation.RunTime | btb.c:225-230 | the cumulative time is the start time plus the block intervals drawn |
| Simulation.StepCapacity | btb.c:150-154 | one block clears min(grown queue, 2101) records; what it leaves keeps the fixed size |
| Simulation.RunCapacity | btb.c:210-241 | over a run of fixed-size records, each block clears at most 2101 records, so n blocks clear at most 2101·n; the queue stays fixed-size |
| Simulation.OrderedJoin | btb.c:116-124 | appending records no earlier than t behind records no later than t keeps the queue ordered |
| Simulation.StepOrder | btb.c:112-132 | after one block's arrivals, the queue is ordered and nothing in it is later than the new clock, which has not moved back |
| Simulation.ArrivedInOrder | btb.c:210-241 | with non-negative gaps the arrivals of a whole run are in order and no earlier than the starting clock; the queue stays ordered; the clock never moves back |
| Simulation.DepartInArrivalOrder | btb.c:210-241 | records depart in arrival order: the departures followed by the records still queued are ordered by time |
| Simulation.StepOn | btb.c:210-241 | the first block of the remaining draws leads to the next state, and the run, its departures and its observations unfold by that block |
| Simulation.OnTrackStep | btb.c:230-240 | a block that moves as the reference step does keeps the mining loop's state on track |
| Simulation.MineBlock | btb.c:225-240 | one block: the pool moves as the reference step; the count returned is the number cleared; each cleared record is recorded at its age |
| Simulation.Mine | btb.c:206-244 | the queue, the clock and the cumulative time end as the reference run says; the handled count is the number of records the run cleared; the histogram gains the run's observations |
| Simulation.AllObservationsCount | btb.c:287-310 | over all runs, the number of observations is the number of records cleared |
| Simulation.AllObservationsSnoc | btb.c:287-310 | after run j the histogram holds the earlier runs' observations followed by run j's |
| Simulation.SimRun | btb.c:288-309 | one run: mine from time 0 with an empty queue, then discard what is pending; the histogram is not reset |
| Simulation.SimRuns | btb.c:287-310 | every run in turn from an empty queue and clock 0, over the one histogram: the queue ends empty, the clock at 0, and the histogram gains each run's observations in order |
| Simulation.Sim | btb.c:268-318 | the histogram ends holding every run's observations in order and num_results counts every record cleared; the report walk starts at the smallest observed bucket, has one line per bucket up to the largest (none when there are no results) and ends at num_results |
| Simulation.SimFromStart | btb.c:268-318 | from the initial globals, `sim` yields a report that is empty exactly when no run cleared a record and whose running count ends at the number of records cleared over all runs |

## Left out

- Random draws (`sim_pp`, `rand`, `srand`, reading seeds from `/dev/urandom`): the block interval and the arrival gaps are supplied per block as `BlockDraws`. The exponential distribution itself is not modelled.
- TxnPool.Pool.SimTransactions: requires `Sufficient`, meaning the supplied arrival gaps carry the clock past the block time. C draws gaps without end, and a finite sequence cannot. `Simulation.Mine` and `Simulation.Sim` require the same for every block, through `Feasible`.
- TxnPool.Pool.CreateBlock: requires `Clearable`, meaning every record the block will clear is `Recordable`: its age is positive and its bucket is below NUM_BUCKETS. `btb.c` has no guard for either, and `log10` of 0 or an index of 11000 or more is undefined there. `Simulation.Mine` and `Simulation.Sim` require the same through `Feasible`.
- Bucketing.BucketIndex: `ceil(NUM_BUCKETS_PER_ORDER * log10(age))` is floating point. It is the uninterpreted parameter `scale`, assumed monotone only where `Bucketing.BucketMonotone` says so.
- Bucketing.Histogram.OutputResults: the ratios `r / num_res`, the cumulative ratio and the `pow` representative age are floating point and are not modelled. The method returns the integer index, count and running count from which they are computed.
- `main`, argument parsing, `printf`/`fprintf` output, the progress divisor and message, and the failures of `fread` and `malloc` (which call `exit`), and the failure of `fopen` (after which `sim` returns without output) are not modelled.
- The `fee` field is never read, so `Txn` has no fee.
- `pending_transactions` and the local counter `cumulative_transactions` are never read, so they are not modelled.
- TxnPool.Pool.EndRun: the end-of-run drain frees each pending record. The model leaves those records in the arena, on neither list, without walking them, so release of memory is not captured.
- Integer widths: `int` and `long` counters and the `long long` result count are unbounded integers here. Overflow of these counters is not captured.
- Doubles are exact reals, so rounding in the arrival clock and in the cumulative time is not captured.
- The contents of a freshly allocated record before it is filled in are left unspecified.
