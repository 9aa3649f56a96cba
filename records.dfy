/** Constants shared by the simulator and the value view of one pending transaction. */
module Records {
  /** Byte footprint given to every simulated transaction: (1024 * 1024) / 2100 in C integer division. */
  const TXN_SIZE: int := (1024 * 1024) / 2100

  /** Byte budget of one block. */
  const BLOCK_SPACE: int := 1024 * 1024

  /** How many TXN_SIZE transactions fit in one block: BLOCK_SPACE / TXN_SIZE. */
  const MAX_PER_BLOCK: int := 2101

  /** What the clearing step sees of a pending record: its size and its arrival time. */
  datatype Entry = Entry(size: int, time: real)

  function Min(a: int, b: int): int { if a <= b then a else b }

  /** Total byte size of a run of entries. */
  function SizeSum(es: seq<Entry>): int
  {
    if es == [] then 0 else es[0].size + SizeSum(es[1..])
  }

  /** Arrival times never decrease from head to tail. */
  ghost predicate Ordered(es: seq<Entry>)
  {
    forall i, j :: 0 <= i < j < |es| ==> es[i].time <= es[j].time
  }

  /** No entry arrived later than `t`. */
  ghost predicate NotAfter(es: seq<Entry>, t: real)
  {
    forall i :: 0 <= i < |es| ==> es[i].time <= t
  }

  /** Every entry has the fixed transaction size. */
  ghost predicate FixedSize(es: seq<Entry>)
  {
    forall i :: 0 <= i < |es| ==> es[i].size == TXN_SIZE
  }
}
